/** The settings manager, the service loop that starts and stops the vendor, and
    how their routing table follows the stored configurations. */
module Settings {
  import opened Collections
  import opened Payload
  import opened Routing
  import opened Configuration
  import opened Reconfiguration

  datatype ESNBridgeConfig = ESNBridgeConfig(esn: string, config: Event, vendor: VendorConfig)

  type Configs = map<string, ESNBridgeConfig>

  /** What the service holds: stored configurations, the active vendor entry and,
      while a vendor runs, its routing table. */
  datatype Service = Service(configs: Configs, active: Option<VendorConfig>, routes: Option<Table>)

  datatype Occurrence =
    | Notice(esn: string, payload: Option<Event>)  // none: does not decode; `null` is the empty map
    | Signal(order: seq<string>)                   // a change signal; the order replays iterate in

  function Notify(routes: Option<Table>, esn: string, config: Option<VendorConfig>): Option<Table> {
    if routes.None? then None else Some(Handle(routes.value, true, esn, config))
  }

  function Updated(s: Service, esn: string, payload: Option<Event>): Service {
    if payload.None? then s else
      var vendor := Generated(payload.value);
      if vendor.Some? then
        Service(s.configs[esn := ESNBridgeConfig(esn, payload.value, vendor.value)],
                if s.active.None? then vendor else s.active,
                Notify(s.routes, esn, vendor))
      else
        Service(s.configs - {esn},
                if s.configs - {esn} == map[] then None else s.active,
                Notify(s.routes, esn, None))
  }

  function Replay(order: seq<string>, configs: Configs): Table
    requires forall esn :: esn in order ==> esn in configs
  {
    if order == [] then map[] else
      assert forall esn :: esn in Front(order) ==> esn in order;
      Handle(Replay(Front(order), configs), true, Last(order), Some(configs[Last(order)].vendor))
  }

  ghost function Signalled(s: Service, order: seq<string>): Service
    requires Enumerates(order, s.configs.Keys)
  {
    if s.active.Some? && s.routes.None? then s.(routes := Some(Replay(order, s.configs)))
    else if s.active.None? then s.(routes := None)
    else s
  }

  ghost predicate ValidRun(events: seq<Occurrence>)
    decreases |events|, 0
  {
    events == [] ||
    (ValidRun(Front(events)) &&
     (Last(events).Signal? ==> Enumerates(Last(events).order, Run(Front(events)).configs.Keys)))
  }

  /** The service after a history of notices and change signals. */
  ghost function Run(events: seq<Occurrence>): Service
    requires ValidRun(events)
    decreases |events|, 1
  {
    if events == [] then Service(map[], None, None) else
      match Last(events)
      case Notice(esn, payload) => Updated(Run(Front(events)), esn, payload)
      case Signal(order) => Signalled(Run(Front(events)), order)
  }

  // ----- what every history keeps -----

  predicate Parses(config: VendorConfig) {
    ParseRegisters(config.registers).Some?
  }

  /** The register is one of the camera's stored configuration. */
  predicate Configured(configs: Configs, ip: string, esn: string) {
    esn in configs && ip in Ips(configs[esn].vendor)
  }

  ghost predicate Stored(configs: Configs) {
    forall esn :: esn in configs ==>
      configs[esn].esn == esn && Generated(configs[esn].config) == Some(configs[esn].vendor)
  }

  /** Nothing is routed to a camera without configuration, and every register of
      a readable configuration is routed. */
  ghost predicate Covering(table: Table, configs: Configs) {
    WellFormed(table) &&
    (forall ip, esn :: Routes(table, ip, esn) ==> esn in configs) &&
    (forall ip, esn :: Configured(configs, ip, esn) && Parses(configs[esn].vendor) ==> Routes(table, ip, esn))
  }

  /** The routing table agrees with the stored configurations. */
  ghost predicate Exact(table: Table, configs: Configs) {
    forall ip, esn :: Routes(table, ip, esn) <==> Configured(configs, ip, esn)
  }

  /** What a readable or unreadable configuration of a camera does to the routes. */
  lemma HandleRoutes(table: Table, esn: string, config: VendorConfig)
    requires Clean(config)
    ensures forall i, e :: Routes(Handle(table, true, esn, Some(config)), i, e) <==>
              if e == esn && Parses(config)
              then i in Ips(config) || (Routes(table, i, esn) && !Leads(table, i, esn))
              else Routes(table, i, e)
    ensures WellFormed(table) ==> WellFormed(Handle(table, true, esn, Some(config)))
  {
    hide Routes, Leads, WellFormed, Update, Ips, Clean;
    if Parses(config) {
      ParsedConfigIps(config);
      UpdateRoutes(table, esn, IpsOf(ParseRegisters(config.registers).value));
    }
  }

  lemma UpdatedCovering(s: Service, esn: string, payload: Option<Event>)
    requires s.routes.Some? && Covering(s.routes.value, s.configs)
    ensures Covering(Updated(s, esn, payload).routes.value, Updated(s, esn, payload).configs)
  {
    hide Routes, Leads, WellFormed, Generated, Handle, Clean, Ips, Parses;
    if payload.Some? {
      var table := s.routes.value;
      if Generated(payload.value).Some? {
        GeneratedClean(payload.value);
        HandleRoutes(table, esn, Generated(payload.value).value);
      } else {
        RemovalIsRemoveEsn(table, esn);
        RemoveEsnRoutes(table, esn);
      }
    }
  }

  lemma RemovalIsRemoveEsn(table: Table, esn: string)
    ensures Handle(table, true, esn, None) == RemoveEsn(table, esn)
  {
  }

  /** A replay from the empty table routes exactly the registers of the readable
      configurations among those replayed, whatever the order. */
  lemma {:induction false} ReplayRoutes(order: seq<string>, configs: Configs)
    requires NoDuplicates(order) && Stored(configs)
    requires forall esn :: esn in order ==> esn in configs
    ensures forall ip, esn :: Routes(Replay(order, configs), ip, esn) <==>
              esn in order && Configured(configs, ip, esn) && Parses(configs[esn].vendor)
    ensures WellFormed(Replay(order, configs))
  {
    if order == [] {
    } else {
      var front, esn := Front(order), Last(order);
      assert order == front + [esn] && esn !in front;
      ReplayRoutes(front, configs);
      GeneratedClean(configs[esn].config);
      hide Leads, WellFormed, Generated, Handle, Clean, Ips, Parses, Routes, NoDuplicates;
      HandleRoutes(Replay(front, configs), esn, configs[esn].vendor);
    }
  }

  /** In every history: configurations are stored as generated, a vendor entry is
      active exactly when some camera is configured, and a running vendor routes
      every register of every readable configuration and nothing for cameras
      without one, shared registers included. */
  lemma {:induction false} ServiceOfRun(events: seq<Occurrence>)
    requires ValidRun(events)
    ensures Stored(Run(events).configs)
    ensures Run(events).active.Some? <==> Run(events).configs != map[]
    ensures Run(events).routes.Some? ==> Covering(Run(events).routes.value, Run(events).configs)
  {
    if events == [] {
    } else {
      var s := Run(Front(events));
      ServiceOfRun(Front(events));
      hide Generated, Covering;
      match Last(events)
      case Notice(esn, payload) =>
        if s.routes.Some? {
          UpdatedCovering(s, esn, payload);
        }
        assert esn in s.configs[esn := ESNBridgeConfig(esn, map[], VendorConfig("", 0, []))];
      case Signal(order) =>
        ReplayCovering(order, s.configs);
    }
  }

  lemma ReplayCovering(order: seq<string>, configs: Configs)
    requires Enumerates(order, configs.Keys) && Stored(configs)
    ensures Covering(Replay(order, configs), configs)
  {
    hide Routes, WellFormed, Replay, Ips, Parses;
    ReplayRoutes(order, configs);
  }

  // ----- exactness -----

  /** When one notice keeps an exact table exact: a readable configuration must
      lead the list of every register the camera gives up, an unreadable one must
      name the registers of the configuration it replaces. */
  ghost predicate KeepsExact(s: Service, esn: string, payload: Option<Event>)
    requires s.routes.Some?
  {
    payload.Some? && Generated(payload.value).Some? ==>
      var vendor := Generated(payload.value).value;
      if Parses(vendor) then
        forall ip :: Configured(s.configs, ip, esn) && ip !in Ips(vendor) ==> Leads(s.routes.value, ip, esn)
      else
        forall ip :: Configured(s.configs, ip, esn) <==> ip in Ips(vendor)
  }

  lemma UpdatedExact(s: Service, esn: string, payload: Option<Event>)
    requires s.routes.Some? && Exact(s.routes.value, s.configs)
    ensures Exact(Updated(s, esn, payload).routes.value, Updated(s, esn, payload).configs) <==>
            KeepsExact(s, esn, payload)
  {
    hide Routes, Leads, WellFormed, Generated, Handle, Clean, Ips, Parses;
    if payload.Some? {
      var table, after := s.routes.value, Updated(s, esn, payload);
      if Generated(payload.value).Some? {
        var vendor := Generated(payload.value).value;
        GeneratedClean(payload.value);
        HandleRoutes(table, esn, vendor);
        assert forall ip, e :: e != esn ==> (Configured(after.configs, ip, e) <==> Configured(s.configs, ip, e));
        assert forall ip :: Configured(after.configs, ip, esn) <==> ip in Ips(vendor);
      } else {
        RemovalIsRemoveEsn(table, esn);
        RemoveEsnRoutes(table, esn);
      }
    }
  }

  /** No register is in the configurations of two cameras. */
  ghost predicate NoSharing(configs: Configs) {
    forall ip, e, f :: Configured(configs, ip, e) && Configured(configs, ip, f) ==> e == f
  }

  ghost predicate AllParse(configs: Configs) {
    forall esn :: esn in configs ==> Parses(configs[esn].vendor)
  }

  /** At every point of the history no register was shared and all
      configurations were readable. */
  ghost predicate Tidy(events: seq<Occurrence>)
    requires ValidRun(events)
  {
    NoSharing(Run(events).configs) && AllParse(Run(events).configs) &&
    (events != [] ==> Tidy(Front(events)))
  }

  lemma UnsharedLeads(table: Table, configs: Configs, ip: string, esn: string)
    requires WellFormed(table) && Exact(table, configs) && NoSharing(configs) && Routes(table, ip, esn)
    ensures table[ip] == [esn]
  {
    hide Configured;
    forall k | 0 <= k < |table[ip]| ensures table[ip][k] == esn {
      assert Routes(table, ip, table[ip][k]);
      assert Configured(configs, ip, table[ip][k]) && Configured(configs, ip, esn);
    }
    assert table[ip][0] == table[ip][|table[ip]| - 1];
  }

  lemma TidyNoticeKeepsExact(s: Service, esn: string, payload: Option<Event>)
    requires s.routes.Some? && WellFormed(s.routes.value) && Exact(s.routes.value, s.configs) && NoSharing(s.configs)
    requires AllParse(Updated(s, esn, payload).configs)
    ensures KeepsExact(s, esn, payload)
  {
    hide Generated, Parses, Ips, Handle, WellFormed;
    if payload.Some? && Generated(payload.value).Some? {
      assert Updated(s, esn, payload).configs[esn].vendor == Generated(payload.value).value;
      forall ip | Configured(s.configs, ip, esn) ensures Leads(s.routes.value, ip, esn) {
        UnsharedLeads(s.routes.value, s.configs, ip, esn);
      }
    }
  }

  /** A generated configuration always names a register. */
  lemma StoredNamesRegisters(configs: Configs, esn: string) returns (ip: string)
    requires Stored(configs) && esn in configs
    ensures Configured(configs, ip, esn)
  {
    GeneratedClean(configs[esn].config);
    var registers := configs[esn].vendor.registers;
    assert registers != [] && registers[0] in registers;
    ip := TextValue(registers[0].fields, IP_ADDRESS);
  }

  /** A replay is exact if and only if every stored configuration is readable. */
  lemma ReplayExact(order: seq<string>, configs: Configs)
    requires Enumerates(order, configs.Keys) && Stored(configs)
    ensures Exact(Replay(order, configs), configs) <==> AllParse(configs)
    ensures WellFormed(Replay(order, configs))
  {
    ReplayRoutes(order, configs);
    hide Routes, WellFormed, Replay, Ips, Parses, Stored, Configured;
    if Exact(Replay(order, configs), configs) {
      forall esn | esn in configs ensures Parses(configs[esn].vendor) {
        var ip := StoredNamesRegisters(configs, esn);
        assert Routes(Replay(order, configs), ip, esn);
      }
    }
  }

  /** At every point of the history a running vendor's table was exact. */
  ghost predicate AlwaysExact(events: seq<Occurrence>)
    requires ValidRun(events)
  {
    (Run(events).routes.Some? ==> Exact(Run(events).routes.value, Run(events).configs)) &&
    (events != [] ==> AlwaysExact(Front(events)))
  }

  /** Every notice to a running vendor kept its table exact by the condition above,
      and every signal that started one found all configurations readable. */
  ghost predicate Harmless(events: seq<Occurrence>)
    requires ValidRun(events)
  {
    events == [] ||
    (Harmless(Front(events)) &&
     var s := Run(Front(events));
     match Last(events)
     case Notice(esn, payload) => s.routes.Some? ==> KeepsExact(s, esn, payload)
     case Signal(_) => s.active.Some? && s.routes.None? ==> AllParse(s.configs))
  }

  /** Over every history of updates, removals, starts and stops: a running vendor
      always routed a register to a camera exactly when the camera's configuration
      named it, if and only if the history was harmless. */
  lemma {:induction false} AlwaysExactIff(events: seq<Occurrence>)
    requires ValidRun(events)
    ensures AlwaysExact(events) <==> Harmless(events)
  {
    if events == [] {
    } else {
      var s := Run(Front(events));
      AlwaysExactIff(Front(events));
      ServiceOfRun(Front(events));
      hide Exact, KeepsExact, AllParse, Generated, WellFormed, Handle, Stored;
      match Last(events)
      case Notice(esn, payload) =>
        if s.routes.Some? && Exact(s.routes.value, s.configs) {
          UpdatedExact(s, esn, payload);
        }
      case Signal(order) =>
        ReplayExact(order, s.configs);
    }
  }

  /** A tidy history is harmless. */
  lemma {:induction false} TidyHarmless(events: seq<Occurrence>)
    requires ValidRun(events) && Tidy(events)
    ensures Harmless(events)
  {
    if events == [] {
    } else {
      var s := Run(Front(events));
      TidyHarmless(Front(events));
      AlwaysExactIff(Front(events));
      ServiceOfRun(Front(events));
      hide Exact, NoSharing, AllParse, Generated, WellFormed, Handle, KeepsExact;
      match Last(events)
      case Notice(esn, payload) =>
        if s.routes.Some? {
          TidyNoticeKeepsExact(s, esn, payload);
        }
      case Signal(order) =>
    }
  }

  /** The routing table refines the configuration: over every tidy history a
      running vendor routes a register to a camera exactly when the camera's
      configuration names it. */
  lemma RoutesOfRun(events: seq<Occurrence>)
    requires ValidRun(events) && Tidy(events)
    ensures Run(events).routes.Some? ==>
              Exact(Run(events).routes.value, Run(events).configs)
  {
    hide Exact, Tidy;
    TidyHarmless(events);
    AlwaysExactIff(events);
  }

  /** Over every tidy history with a running vendor: an emission for a register goes
      to exactly the cameras of the wire format whose configuration names it, each
      once, and to the fall-back camera when there is none. */
  lemma EmissionsOfRun(events: seq<Occurrence>, fallback: string, ip: string)
    requires ValidRun(events) && Tidy(events) && Run(events).routes.Some?
    ensures var cameras := Resolve(Run(events).routes.value, fallback, ip);
            NoDuplicates(cameras) &&
            if exists esn :: Configured(Run(events).configs, ip, esn) && IsValidEsn(esn) then
              forall esn :: esn in cameras <==> Configured(Run(events).configs, ip, esn) && IsValidEsn(esn)
            else cameras == [if IsValidEsn(fallback) then fallback else INVALID_ESN]
  {
    RoutesOfRun(events);
    ServiceOfRun(events);
    var table, configs := Run(events).routes.value, Run(events).configs;
    ResolveIsFanOut(table, fallback, ip);
    if ip in table {
      ValidOnlyElements(table[ip]);
    }
    hide Run, Tidy, Configured, IsValidEsn;
    assert forall esn :: Routes(table, ip, esn) <==> Configured(configs, ip, esn);
    if ip in table && ValidOnly(table[ip]) != [] {
      assert ValidOnly(table[ip])[0] in ValidOnly(table[ip]);
    }
  }

  /** An unshared configuration set has only one exact table. */
  lemma ExactUnique(a: Table, b: Table, configs: Configs)
    requires Exact(a, configs) && Exact(b, configs) && NoSharing(configs)
    requires WellFormed(a) && WellFormed(b)
    ensures a == b
  {
    hide Configured, Exact, NoSharing;
    forall ip | ip in a ensures ip in b && a[ip] == b[ip] {
      SameEntry(a, b, configs, ip);
    }
    forall ip | ip in b ensures ip in a && a[ip] == b[ip] {
      SameEntry(b, a, configs, ip);
    }
    assert a.Keys == b.Keys;
  }

  lemma SameEntry(a: Table, b: Table, configs: Configs, ip: string)
    requires Exact(a, configs) && Exact(b, configs) && NoSharing(configs)
    requires WellFormed(a) && WellFormed(b) && ip in a
    ensures ip in b && a[ip] == b[ip]
  {
    var esn := a[ip][0];
    assert Routes(a, ip, esn);
    assert Configured(configs, ip, esn);
    assert Routes(b, ip, esn);
    UnsharedLeads(a, configs, ip, esn);
    UnsharedLeads(b, configs, ip, esn);
  }

  /** After a tidy history, a restart in any iteration order rebuilds the very
      table that the incremental updates had built. */
  lemma ReplayRebuilds(events: seq<Occurrence>, order: seq<string>)
    requires ValidRun(events) && Tidy(events) && Run(events).routes.Some?
    requires Enumerates(order, Run(events).configs.Keys)
    ensures Replay(order, Run(events).configs) == Run(events).routes.value
  {
    var s := Run(events);
    ServiceOfRun(events);
    RoutesOfRun(events);
    assert AllParse(s.configs) && NoSharing(s.configs);
    ReplayExact(order, s.configs);
    ExactUnique(Replay(order, s.configs), s.routes.value, s.configs);
  }

  /** Even with shared registers, two replay orders agree on every route. */
  lemma ReplayOrderIrrelevant(order: seq<string>, other: seq<string>, configs: Configs, ip: string, esn: string)
    requires Enumerates(order, configs.Keys) && Enumerates(other, configs.Keys) && Stored(configs)
    ensures Routes(Replay(order, configs), ip, esn) <==> Routes(Replay(other, configs), ip, esn)
  {
    hide Routes, WellFormed, Replay, Ips, Parses;
    ReplayRoutes(order, configs);
    ReplayRoutes(other, configs);
  }

  // ----- one register -----

  function Single(r: Json): Event {
    map[VENDOR_NAME := Arr([r])]
  }

  lemma SingleConfig(r: Json)
    requires Identity(r).Some?
    ensures Generated(Single(r)).Some? && Generated(Single(r)).value.registers == [r]
    ensures Parses(Generated(Single(r)).value) <==> Readable(r)
    ensures r.Obj? && Ips(Generated(Single(r)).value) == {TextValue(r.fields, IP_ADDRESS)}
  {
    hide TextValue, Readable, StringAt, JoinedKey;
    assert Front([r]) == [] && Last([r]) == r;
    assert Deduplicated([r]) == [r];
    ParsesIffReadable([r]);
    SingleIps(r, Generated(Single(r)).value);
  }

  lemma SingleIps(r: Json, config: VendorConfig)
    requires config.registers == [r] && Identity(r).Some?
    ensures r.Obj? && Ips(config) == {TextValue(r.fields, IP_ADDRESS)}
  {
    hide TextValue, StringAt;
    assert r in config.registers && forall s :: s in config.registers ==> s == r;
  }

  // ----- a shared register -----

  function OneRegister(ip: string): Event {
    Single(RegisterJson(ip, "1"))
  }

  lemma OneRegisterConfig(ip: string)
    ensures Generated(OneRegister(ip)).Some?
    ensures Generated(OneRegister(ip)).value.registers == [RegisterJson(ip, "1")]
    ensures Parses(Generated(OneRegister(ip)).value) && Ips(Generated(OneRegister(ip)).value) == {ip}
  {
    var r := RegisterJson(ip, "1");
    assert Identity(r) == Some((ip, "1"));
    AsciiIpAsWritten(r);
    assert Readable(r);
    hide TextValue, Readable, Identity, Generated, Parses, Ips;
    SingleConfig(r);
  }

  function SharedHistory(): seq<Occurrence> {
    [Notice("a", Some(OneRegister("x"))), Signal(["a"]), Notice("b", Some(OneRegister("x"))),
     Notice("b", Some(OneRegister("y")))]
  }

  /** A camera new to the table joins a register behind the cameras it has. */
  lemma JoinsBehind(table: Table, esn: string, ip: string)
    requires forall i :: !Routes(table, i, esn)
    requires ip in table
    ensures Handle(table, true, esn, Generated(OneRegister(ip))) == table[ip := table[ip] + [esn]]
  {
    OneRegisterConfig(ip);
    var config := Generated(OneRegister(ip)).value;
    GeneratedClean(OneRegister(ip));
    hide Generated, OneRegister, Ips;
    var ips := IpsOf(ParseRegisters(config.registers).value);
    ParsedIps(config.registers);
    assert ips == [ip];
    assert StaleIps(table, esn, Elements(ips)) == {} by {
      forall i | i in FirstEsns(table) ensures FirstEsns(table)[i] != esn {
        assert !Routes(table, i, esn);
      }
    }
    assert Front(ips) == [] && Last(ips) == ip;
    assert !Routes(table, ip, esn);
    assert AddAll(table, esn, Front(ips)) == table;
    assert AddAll(table, esn, ips) == AddMapping(table, ip, esn);
    assert Update(table, esn, ips) == AddMapping(table, ip, esn);
    assert Handle(table, true, esn, Some(config)) == Update(table, esn, ips);
  }

  /** It stays there when its configuration then names other registers. */
  lemma LateJoinerSticks(table: Table, esn: string, ip: string, config: VendorConfig)
    requires forall i :: !Routes(table, i, esn)
    requires ip in table && table[ip] != [] && table[ip][0] != esn
    requires Clean(config) && ip !in Ips(config)
    ensures Routes(Handle(Handle(table, true, esn, Generated(OneRegister(ip))), true, esn, Some(config)), ip, esn)
  {
    hide Handle, Ips, Clean, OneRegister, Generated, Parses;
    JoinsBehind(table, esn, ip);
    HandleRoutes(table[ip := table[ip] + [esn]], esn, config);
  }

  lemma SharedSteps()
    ensures var h := SharedHistory();
            ValidRun(h) && ValidRun(h[..2]) && ValidRun(h[..3]) &&
            Run(h[..2]).routes.Some? && Run(h[..3]).routes.Some? && Run(h).routes.Some? &&
            Run(h[..2]).configs.Keys == {"a"} && Configured(Run(h[..2]).configs, "x", "a") &&
            Exact(Run(h[..2]).routes.value, Run(h[..2]).configs) && WellFormed(Run(h[..2]).routes.value) &&
            Run(h[..3]).routes.value == Handle(Run(h[..2]).routes.value, true, "b", Generated(OneRegister("x"))) &&
            Run(h).routes.value == Handle(Run(h[..3]).routes.value, true, "b", Generated(OneRegister("y"))) &&
            !Configured(Run(h).configs, "x", "b")
  {
    var h := SharedHistory();
    OneRegisterConfig("x");
    OneRegisterConfig("y");
    hide OneRegister, Generated, Parses, Ips, Replay, Handle, Stored, Covering, WellFormed, Routes, Exact, RegisterJson;
    assert Front(h) == h[..3] && Front(h[..3]) == h[..2] && Front(h[..2]) == h[..1] && Front(h[..1]) == [];
    var s1 := Run(h[..1]);
    assert s1 == Updated(Run([]), "a", Some(OneRegister("x")));
    assert s1.configs.Keys == {"a"} && s1.configs["a"].vendor == Generated(OneRegister("x")).value;
    assert Enumerates(["a"], s1.configs.Keys);
    assert Run(h[..2]) == Signalled(s1, ["a"]);
    assert ValidRun(h[..1]);
    ServiceOfRun(h[..1]);
    ReplayExact(["a"], s1.configs);
  }

  lemma OnlyCamera(table: Table, configs: Configs, ip: string, esn: string, other: string)
    requires WellFormed(table) && Exact(table, configs) && configs.Keys == {esn} && esn != other
    requires Configured(configs, ip, esn)
    ensures ip in table && table[ip] != [] && table[ip][0] != other
    ensures forall i :: !Routes(table, i, other)
  {
    hide Configured;
    assert Routes(table, ip, esn);
    forall e | Configured(configs, ip, e) ensures e == esn {
      ConfiguredCamera(configs, ip, e);
    }
    forall i ensures !Routes(table, i, other) {
      if Routes(table, i, other) {
        ConfiguredCamera(configs, i, other);
        assert false;
      }
    }
    assert Routes(table, ip, table[ip][0]);
  }

  lemma ConfiguredCamera(configs: Configs, ip: string, esn: string)
    requires Configured(configs, ip, esn)
    ensures esn in configs
  {
    hide Ips;
  }

  /** Without tidiness the refinement fails: a camera that joins a shared
      register and then moves away stays in the register's list. */
  lemma SharedRegisterSticks()
    ensures ValidRun(SharedHistory()) && Run(SharedHistory()).routes.Some?
    ensures Routes(Run(SharedHistory()).routes.value, "x", "b")
    ensures !Configured(Run(SharedHistory()).configs, "x", "b")
  {
    hide OneRegister, Generated, Parses, Ips, Replay, Handle, Run, ValidRun, Exact, WellFormed, Configured, Routes;
    SharedSteps();
    var h := SharedHistory();
    var t2, configs := Run(h[..2]).routes.value, Run(h[..2]).configs;
    OneRegisterConfig("y");
    GeneratedClean(OneRegister("y"));
    OnlyCamera(t2, configs, "x", "a", "b");
    LateJoinerSticks(t2, "b", "x", Generated(OneRegister("y")).value);
  }

  // ----- an unreadable register -----

  function NumericRegister(): Json {
    Obj(map["ip_address" := Str("x"), "terminal_number" := Str("1"), "store_number" := Num("7")])
  }

  function NumericStore(): Event {
    Single(NumericRegister())
  }

  lemma NumericRegisterRead()
    ensures Identity(NumericRegister()) == Some(("x", "1"))
    ensures !Readable(NumericRegister()) && TextValue(NumericRegister().fields, IP_ADDRESS) == "x"
  {
    var r := NumericRegister();
    assert Identity(r) == Some(("x", "1"));
    hide TextValue;
    AsciiIpAsWritten(r);
    assert "store_number" in Spellings(r.fields, "store_number");
  }

  lemma NumericStoreConfig()
    ensures Generated(NumericStore()).Some?
    ensures !Parses(Generated(NumericStore()).value) && "x" in Ips(Generated(NumericStore()).value)
  {
    NumericRegisterRead();
    hide Identity, Readable, TextValue, NumericRegister, Generated, Parses, Ips;
    SingleConfig(NumericRegister());
  }

  /** A register whose store number is a number: the service is active and the
      vendor runs, but the register is not routed. */
  lemma NumericStoreNotRouted()
    ensures var h := [Notice("a", Some(NumericStore())), Signal(["a"])];
            ValidRun(h) && Run(h).active.Some? && Run(h).routes.Some? &&
            Configured(Run(h).configs, "x", "a") && !Routes(Run(h).routes.value, "x", "a")
  {
    var h := [Notice("a", Some(NumericStore())), Signal(["a"])];
    NumericStoreConfig();
    hide NumericStore, Generated, Parses, Ips, Replay, Stored, Covering, WellFormed, Routes;
    assert Front(h) == h[..1] && Front(h[..1]) == [];
    var s := Run(h[..1]);
    assert s == Updated(Run([]), "a", Some(NumericStore()));
    assert s.configs.Keys == {"a"} && s.configs["a"].vendor == Generated(NumericStore()).value;
    assert Enumerates(["a"], s.configs.Keys);
    assert ValidRun(h[..1]);
    ServiceOfRun(h[..1]);
    ReplayRoutes(["a"], s.configs);
  }

  // ----- the objects -----

  class Manager {
    var esnConfigs: Configs
    var activeVendor: Option<VendorConfig>

    constructor ()
      ensures esnConfigs == map[] && activeVendor == None
    {
      esnConfigs, activeVendor := map[], None;
    }

    /** `active` is what the update callback forwards to: a vendor that was
        started, or null. */
    method UpdateSettings(esn: string, payload: Option<Event>, active: Vendor?) returns (ok: bool)
      requires active != null ==> active.ingestor
      modifies this
      modifies if active == null then {} else {active.routes}
      ensures ok == payload.Some?
      ensures Snapshot(this, active) == Updated(old(Snapshot(this, active)), esn, payload)
    {
      hide Handle, HandleSteps, KeyOf;
      if payload.None? {
        return false;
      }
      var bridgeConfig := payload.value;
      var hasConfig, generatedVendor := false, None;
      if VENDOR_NAME in bridgeConfig && bridgeConfig[VENDOR_NAME].Arr? && |bridgeConfig[VENDOR_NAME].items| > 0 {
        var cleanedArray := DeduplicateRegisters(bridgeConfig[VENDOR_NAME].items);
        if |cleanedArray| > 0 {
          hasConfig, generatedVendor := true, Some(VendorConfig(VENDOR_NAME, DEFAULT_PORT, cleanedArray));
        }
      }
      assert generatedVendor == Generated(bridgeConfig) && hasConfig == generatedVendor.Some?;
      if hasConfig {
        esnConfigs := esnConfigs[esn := ESNBridgeConfig(esn, bridgeConfig, generatedVendor.value)];
        if activeVendor.None? {
          activeVendor := generatedVendor;
        }
        if active != null {
          active.HandleESNConfiguration(esn, generatedVendor);
        }
      } else {
        esnConfigs := esnConfigs - {esn};
        if active != null {
          active.HandleESNConfiguration(esn, None);
        }
        if |esnConfigs| == 0 {
          activeVendor := None;
        }
      }
      ok := true;
    }

    method GetAllESNConfigurations() returns (result: map<string, VendorConfig>)
      ensures result == map esn | esn in esnConfigs :: esnConfigs[esn].vendor
    {
      result := map[];
      var remaining := esnConfigs.Keys;
      while remaining != {}
        invariant remaining <= esnConfigs.Keys
        invariant result.Keys == esnConfigs.Keys - remaining
        invariant forall esn :: esn in result ==> result[esn] == esnConfigs[esn].vendor
        decreases remaining
      {
        var esn :| esn in remaining;
        result := result[esn := esnConfigs[esn].vendor];
        remaining := remaining - {esn};
      }
    }
  }

  ghost function Snapshot(manager: Manager, active: Vendor?): Service
    reads manager, if active == null then {} else {active.routes}
  {
    Service(manager.esnConfigs, manager.activeVendor,
            if active == null then None else Some(active.routes.ipToEsns))
  }

  /** The body of the service loop: what one change signal does to the running
      vendor. The replay iterates the configurations in an arbitrary order. */
  method OnChange(manager: Manager, active: Vendor?) returns (running: Vendor?, ghost order: seq<string>)
    requires active != null ==> active.ingestor
    ensures running != null ==> running.ingestor
    ensures running != null && running != active ==> fresh(running) && fresh(running.routes)
    ensures Enumerates(order, manager.esnConfigs.Keys)
    ensures Snapshot(manager, running) == Signalled(old(Snapshot(manager, active)), order)
    ensures unchanged(manager) && (active != null ==> unchanged(active) && unchanged(active.routes))
  {
    hide Handle, HandleSteps;
    running := active;
    if manager.activeVendor.Some? && active == null {
      running := new Vendor();
      running.Start();
      order := ReplayInto(manager, running);
    } else {
      order := SomeOrder(manager.esnConfigs.Keys);
      if manager.activeVendor.None? && active != null {
        running := null;
      }
    }
  }

  method ReplayInto(manager: Manager, vendor: Vendor) returns (ghost order: seq<string>)
    requires vendor.ingestor && vendor.routes.ipToEsns == map[]
    modifies vendor.routes
    ensures Enumerates(order, manager.esnConfigs.Keys)
    ensures vendor.routes.ipToEsns == Replay(order, manager.esnConfigs)
  {
    hide Handle, HandleSteps;
    var configs := manager.GetAllESNConfigurations();
    order := [];
    var remaining := configs.Keys;
    while remaining != {}
      invariant remaining <= configs.Keys
      invariant NoDuplicates(order)
      invariant forall esn :: esn in order <==> esn in configs && esn !in remaining
      invariant vendor.routes.ipToEsns == Replay(order, manager.esnConfigs)
      decreases remaining
    {
      var esn :| esn in remaining;
      vendor.HandleESNConfiguration(esn, Some(configs[esn]));
      assert Front(order + [esn]) == order && Last(order + [esn]) == esn;
      order := order + [esn];
      remaining := remaining - {esn};
    }
  }
}
