/** How the 7-Eleven vendor turns one camera's configuration into changes of
    the routing table, in several separately locked steps. */
module Reconfiguration {
  import opened Collections
  import opened Payload
  import opened Routing
  import opened Configuration

  /** What an update sees as no longer configured: only IPs where the camera is
      first in the list. */
  function StaleIps(table: Table, esn: string, ips: set<string>): set<string> {
    set ip | ip in FirstEsns(table) && FirstEsns(table)[ip] == esn && ip !in ips
  }

  function Cleared(table: Table, esn: string, ips: set<string>): Table {
    var stale := StaleIps(table, esn, ips);
    if stale == {} then table else RemoveSpecific(table, esn, stale)
  }

  function AddAll(table: Table, esn: string, ips: seq<string>): Table {
    if ips == [] then table else AddMapping(AddAll(table, esn, Front(ips)), Last(ips), esn)
  }

  function Update(table: Table, esn: string, ips: seq<string>): Table {
    AddAll(Cleared(table, esn, Elements(ips)), esn, ips)
  }

  /** The tables after each addition. */
  function AddSteps(table: Table, esn: string, ips: seq<string>): seq<Table> {
    if ips == [] then [] else AddSteps(table, esn, Front(ips)) + [AddAll(table, esn, ips)]
  }

  /** Every table other threads can see while an update runs. */
  function UpdateSteps(table: Table, esn: string, ips: seq<string>): seq<Table> {
    var cleared := Cleared(table, esn, Elements(ips));
    (if StaleIps(table, esn, Elements(ips)) == {} then [] else [cleared]) + AddSteps(cleared, esn, ips)
  }

  /** One configuration notice; none means removal. */
  function Handle(table: Table, started: bool, esn: string, config: Option<VendorConfig>): Table {
    if config.None? then RemoveEsn(table, esn)
    else if ParseRegisters(config.value.registers).None? || !started then table
    else Update(table, esn, IpsOf(ParseRegisters(config.value.registers).value))
  }

  function HandleSteps(table: Table, started: bool, esn: string, config: Option<VendorConfig>): seq<Table> {
    if config.None? then [RemoveEsn(table, esn)]
    else if ParseRegisters(config.value.registers).None? || !started then []
    else UpdateSteps(table, esn, IpsOf(ParseRegisters(config.value.registers).value))
  }

  // ----- what an update does to the routes -----

  /** The camera leads the list of this IP. */
  predicate Leads(table: Table, ip: string, esn: string) {
    ip in table && table[ip] != [] && table[ip][0] == esn
  }

  lemma ClearedRoutes(table: Table, esn: string, ips: set<string>)
    ensures forall i, e :: Routes(Cleared(table, esn, ips), i, e) <==>
              Routes(table, i, e) && !(e == esn && i !in ips && Leads(table, i, esn))
    ensures WellFormed(table) ==> WellFormed(Cleared(table, esn, ips))
  {
    var stale := StaleIps(table, esn, ips);
    assert forall i :: i in stale <==> i !in ips && Leads(table, i, esn);
    RemoveSpecificRoutes(table, esn, stale);
  }

  lemma {:induction false} AddAllRoutes(table: Table, esn: string, ips: seq<string>)
    ensures forall i, e :: Routes(AddAll(table, esn, ips), i, e) <==> Routes(table, i, e) || (e == esn && i in ips)
    ensures WellFormed(table) ==> WellFormed(AddAll(table, esn, ips))
  {
    hide Routes, AddMapping, WellFormed;
    if ips == [] {
    } else {
      AddAllRoutes(table, esn, Front(ips));
      AddMappingRoutes(AddAll(table, esn, Front(ips)), Last(ips), esn);
      assert ips == Front(ips) + [Last(ips)];
    }
  }

  /** Exactly which routes an update leaves: other cameras' untouched, every
      configured IP routed, an unlisted one unless this camera led its list. */
  lemma UpdateRoutes(table: Table, esn: string, ips: seq<string>)
    ensures forall i, e :: Routes(Update(table, esn, ips), i, e) <==>
              if e == esn then i in ips || (Routes(table, i, esn) && !Leads(table, i, esn)) else Routes(table, i, e)
    ensures WellFormed(table) ==> WellFormed(Update(table, esn, ips))
  {
    hide Routes, Leads, WellFormed, Cleared, AddAll;
    ClearedRoutes(table, esn, Elements(ips));
    AddAllRoutes(Cleared(table, esn, Elements(ips)), esn, ips);
  }

  /** What every table seen during an update keeps. */
  ghost predicate NoGap(before: Table, seen: Table, esn: string, ips: seq<string>) {
    (forall i, e :: e != esn ==> (Routes(seen, i, e) <==> Routes(before, i, e))) &&
    (forall i :: Routes(before, i, esn) && (i in ips || !Leads(before, i, esn)) ==> Routes(seen, i, esn)) &&
    (forall i :: Routes(seen, i, esn) ==> i in ips || Routes(before, i, esn)) &&
    (WellFormed(before) ==> WellFormed(seen))
  }

  lemma {:induction false} AddStepsNoGap(table: Table, esn: string, ips: seq<string>, all: seq<string>, before: Table)
    requires NoGap(before, table, esn, all)
    requires forall ip :: ip in ips ==> ip in all
    ensures forall t :: t in AddSteps(table, esn, ips) ==> NoGap(before, t, esn, all)
  {
    hide Routes, WellFormed, AddAll;
    if ips == [] {
    } else {
      AddStepsNoGap(table, esn, Front(ips), all, before);
      AddAllRoutes(table, esn, ips);
      assert NoGap(before, AddAll(table, esn, ips), esn, all);
    }
  }

  /** At every locked step other cameras keep exactly their routes, an IP routed
      before and after stays routed, and nothing outside the two appears; the
      last step is the update. */
  lemma UpdateNoGap(table: Table, esn: string, ips: seq<string>)
    ensures forall t :: t in UpdateSteps(table, esn, ips) ==> NoGap(table, t, esn, ips)
    ensures Update(table, esn, ips) ==
            if UpdateSteps(table, esn, ips) == [] then table else Last(UpdateSteps(table, esn, ips))
  {
    var cleared := Cleared(table, esn, Elements(ips));
    ClearedRoutes(table, esn, Elements(ips));
    assert NoGap(table, cleared, esn, ips) by {
      hide Routes, Leads, Cleared, WellFormed;
    }
    AddStepsNoGap(cleared, esn, ips, ips, table);
    hide AddMapping, RemoveSpecific;
    if ips != [] {
      assert Last(UpdateSteps(table, esn, ips)) == AddAll(cleared, esn, ips);
    }
  }

  /** An emission made while an update runs still reaches every camera that the
      register is routed to before and after it. */
  lemma NoEmissionLost(table: Table, esn: string, ips: seq<string>, seen: Table, fallback: string, ip: string,
                       camera: string)
    requires seen in UpdateSteps(table, esn, ips) && WellFormed(table)
    requires IsValidEsn(camera) && Routes(table, ip, camera) && Routes(Update(table, esn, ips), ip, camera)
    ensures camera in Resolve(seen, fallback, ip)
  {
    UpdateNoGap(table, esn, ips);
    UpdateRoutes(table, esn, ips);
    assert NoGap(table, seen, esn, ips);
    assert Routes(seen, ip, camera);
    ValidOnlyElements(seen[ip]);
  }

  // ----- the vendor object -----

  class Vendor {
    const routes: EsnTable  // the routing part of the state machine
    var ingestor: bool  // an ingestor exists once the vendor was started

    constructor ()
      ensures fresh(routes) && !ingestor
      ensures routes.ipToEsns == map[] && routes.esn == DEFAULT_ESN
    {
      routes := new EsnTable();
      ingestor := false;
      new;
      routes.SetIPESNMappings(map[]);
    }

    method Start()
      modifies this
      ensures ingestor
    {
      ingestor := true;
    }

    method HandleESNConfiguration(esn: string, vendor: Option<VendorConfig>)
      modifies routes`ipToEsns, routes`published
      ensures routes.ipToEsns == Handle(old(routes.ipToEsns), ingestor, esn, vendor)
      ensures routes.published == old(routes.published) +
                HandleSteps(old(routes.ipToEsns), ingestor, esn, vendor)
    {
      hide Update, UpdateSteps, RemoveEsn, ParseRegisters;
      if vendor.None? {
        RemoveESNConfiguration(esn);
        return;
      }
      var registers := ParseRegisters(vendor.value.registers);
      if registers.None? {
        return;
      }
      if ingestor {
        AtomicESNConfigurationUpdate(esn, registers.value);
      }
    }

    method AtomicESNConfigurationUpdate(esn: string, registers: seq<RegisterConfig>)
      modifies routes`ipToEsns, routes`published
      ensures routes.ipToEsns == Update(old(routes.ipToEsns), esn, IpsOf(registers))
      ensures routes.published == old(routes.published) +
                UpdateSteps(old(routes.ipToEsns), esn, IpsOf(registers))
    {
      hide RemoveSpecific, AddMapping, AddAll, AddSteps;
      var ips := IpsOf(registers);
      ghost var table := routes.ipToEsns;
      var currentMappings := routes.GetIPESNMappings();
      var ipsToRemove := IPsToRemove(currentMappings, esn, registers);
      assert Elements(ipsToRemove) == StaleIps(table, esn, Elements(ips));
      assert |ipsToRemove| > 0 ==> ipsToRemove[0] in Elements(ipsToRemove);
      if |ipsToRemove| > 0 {
        routes.RemoveSpecificIPESNMappings(esn, ipsToRemove);
      }
      assert routes.ipToEsns == Cleared(table, esn, Elements(ips));
      hide Cleared, StaleIps, FirstEsns;
      AddMappings(esn, registers);
    }

    /** The loop that maps every register. */
    method AddMappings(esn: string, registers: seq<RegisterConfig>)
      modifies routes`ipToEsns, routes`published
      ensures routes.ipToEsns == AddAll(old(routes.ipToEsns), esn, IpsOf(registers))
      ensures routes.published == old(routes.published) + AddSteps(old(routes.ipToEsns), esn, IpsOf(registers))
    {
      hide AddMapping;
      var ips := IpsOf(registers);
      for i := 0 to |registers|
        invariant routes.ipToEsns == AddAll(old(routes.ipToEsns), esn, ips[..i])
        invariant routes.published == old(routes.published) + AddSteps(old(routes.ipToEsns), esn, ips[..i])
      {
        assert Front(ips[..i + 1]) == ips[..i] && Last(ips[..i + 1]) == registers[i].ipAddress;
        routes.AddIPESNMapping(registers[i].ipAddress, esn);
      }
      assert ips[..|registers|] == ips;
    }

    /** The loops that find what the camera leads and is no longer configured. */
    method IPsToRemove(mappings: map<string, string>, esn: string, registers: seq<RegisterConfig>)
      returns (ipsToRemove: seq<string>)
      ensures forall ip :: ip in ipsToRemove <==> ip in mappings && mappings[ip] == esn && ip !in IpsOf(registers)
    {
      var ips := IpsOf(registers);
      var currentIPsForESN := CurrentIPs(mappings, esn);
      var newIPs: set<string> := {};
      for i := 0 to |registers|
        invariant newIPs == Elements(ips[..i])
      {
        assert ips[..i + 1] == ips[..i] + [registers[i].ipAddress];
        newIPs := newIPs + {registers[i].ipAddress};
      }
      assert ips[..|registers|] == ips;
      ipsToRemove := [];
      for i := 0 to |currentIPsForESN|
        invariant forall ip :: ip in ipsToRemove <==> ip in currentIPsForESN[..i] && ip !in newIPs
      {
        if currentIPsForESN[i] !in newIPs {
          ipsToRemove := ipsToRemove + [currentIPsForESN[i]];
        }
      }
    }

    /** The first loop of the update: IPs this camera leads. */
    method CurrentIPs(mappings: map<string, string>, esn: string) returns (ips: seq<string>)
      ensures forall ip :: ip in ips <==> ip in mappings && mappings[ip] == esn
      ensures NoDuplicates(ips)
    {
      ips := [];
      var remaining := mappings.Keys;
      while remaining != {}
        invariant remaining <= mappings.Keys
        invariant forall ip :: ip in ips <==> ip in mappings && ip !in remaining && mappings[ip] == esn
        invariant NoDuplicates(ips)
        decreases remaining
      {
        var ip :| ip in remaining;
        if mappings[ip] == esn {
          ips := ips + [ip];
        }
        remaining := remaining - {ip};
      }
    }

    method RemoveESNConfiguration(esn: string)
      modifies routes`ipToEsns, routes`published
      ensures routes.ipToEsns == RemoveEsn(old(routes.ipToEsns), esn)
      ensures routes.published == old(routes.published) + [routes.ipToEsns]
    {
      routes.RemoveESNMappings(esn);
    }
  }
}
