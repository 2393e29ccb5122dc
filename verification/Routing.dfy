/** The routing table from register IPs to camera ESNs, and the object that
    guards it. Every method of `EsnTable` is one critical section. */
module Routing {
  import opened Collections
  const DEFAULT_ESN := "1000face"
  const INVALID_ESN := "00000000"

  type Table = map<string, seq<string>>

  predicate IsHexDigit(c: char) { '0' <= c <= '9' || 'a' <= c <= 'f' }

  predicate IsValidEsn(esn: string) {
    |esn| == 8 && forall i :: 0 <= i < |esn| ==> IsHexDigit(esn[i])
  }

  /** The wire format: eight lower-case hexadecimal digits. The fall-back and the
      invalid ESN have it. */
  lemma EsnFormat(esn: string)
    ensures IsValidEsn(esn) <==> |esn| == 8 && forall c :: c in esn ==> c in "0123456789abcdef"
    ensures IsValidEsn("1000face") && DEFAULT_ESN == "1000face" && IsValidEsn("00000000") && INVALID_ESN == "00000000"
  {
    forall c ensures IsHexDigit(c) <==> c in "0123456789abcdef" {
      var digits := "0123456789abcdef";
      if '0' <= c <= '9' {
        assert digits[c as int - '0' as int] == c;
      } else if 'a' <= c <= 'f' {
        assert digits[c as int - 'a' as int + 10] == c;
      }
    }
    assert forall i :: 0 <= i < |esn| ==> esn[i] in esn;
  }

  /** The table maps `ip` to `esn`, possibly among others. */
  predicate Routes(table: Table, ip: string, esn: string) {
    ip in table && esn in table[ip]
  }

  predicate WellFormed(table: Table) {
    forall ip :: ip in table ==> table[ip] != [] && NoDuplicates(table[ip])
  }

  function ValidOnly(esns: seq<string>): seq<string> {
    if esns == [] then [] else
      var before := ValidOnly(esns[..|esns| - 1]);
      var esn := esns[|esns| - 1];
      if IsValidEsn(esn) then before + [esn] else before
  }

  function Without(esns: seq<string>, esn: string): seq<string> {
    if esns == [] then [] else
      var before := Without(esns[..|esns| - 1], esn);
      var last := esns[|esns| - 1];
      if last != esn then before + [last] else before
  }

  /** The cameras an emission for `ip` is fanned out to. */
  function Resolve(table: Table, fallback: string, ip: string): seq<string> {
    var valid := if ip in table then ValidOnly(table[ip]) else [];
    if valid != [] then valid
    else if IsValidEsn(fallback) then [fallback]
    else [INVALID_ESN]
  }

  function AddMapping(table: Table, ip: string, esn: string): Table {
    var present := if ip in table then table[ip] else [];
    if esn in present then table else table[ip := present + [esn]]
  }

  function RemoveEsn(table: Table, esn: string): Table {
    map ip | ip in table && Without(table[ip], esn) != [] :: Without(table[ip], esn)
  }

  function RemoveSpecific(table: Table, esn: string, ips: set<string>): Table {
    map ip | ip in table && (ip !in ips || Without(table[ip], esn) != []) ::
      if ip in ips then Without(table[ip], esn) else table[ip]
  }

  function SetMappings(mappings: map<string, string>): Table {
    map ip | ip in mappings :: [mappings[ip]]
  }

  /** The first ESN of every IP: all that a configuration update sees. */
  function FirstEsns(table: Table): map<string, string> {
    map ip | ip in table && table[ip] != [] :: table[ip][0]
  }

  // ----- lemmas about the list filters -----

  lemma {:induction false} WithoutElements(esns: seq<string>, esn: string)
    ensures forall e :: e in Without(esns, esn) <==> e in esns && e != esn
    ensures NoDuplicates(esns) ==> NoDuplicates(Without(esns, esn))
  {
    if esns == [] {
    } else {
      var front := esns[..|esns| - 1];
      WithoutElements(front, esn);
      assert esns == front + [esns[|esns| - 1]];
      assert NoDuplicates(esns) ==> esns[|esns| - 1] !in front;
    }
  }

  lemma {:induction false} ValidOnlyElements(esns: seq<string>)
    ensures forall e :: e in ValidOnly(esns) <==> e in esns && IsValidEsn(e)
    ensures NoDuplicates(esns) ==> NoDuplicates(ValidOnly(esns))
  {
    if esns == [] {
    } else {
      var front := esns[..|esns| - 1];
      ValidOnlyElements(front);
      assert esns == front + [esns[|esns| - 1]];
      assert NoDuplicates(esns) ==> esns[|esns| - 1] !in front;
    }
  }

  // ----- what each table operation does to the routes -----

  lemma AddMappingRoutes(table: Table, ip: string, esn: string)
    ensures forall i, e :: Routes(AddMapping(table, ip, esn), i, e) <==> Routes(table, i, e) || (i == ip && e == esn)
    ensures WellFormed(table) ==> WellFormed(AddMapping(table, ip, esn))
  {
  }

  lemma RemoveEsnRoutes(table: Table, esn: string)
    ensures forall i, e :: Routes(RemoveEsn(table, esn), i, e) <==> Routes(table, i, e) && e != esn
    ensures WellFormed(table) ==> WellFormed(RemoveEsn(table, esn))
  {
    forall ip | ip in table
      ensures forall e :: e in Without(table[ip], esn) <==> e in table[ip] && e != esn
      ensures NoDuplicates(table[ip]) ==> NoDuplicates(Without(table[ip], esn))
    {
      WithoutElements(table[ip], esn);
    }
  }

  lemma RemoveSpecificRoutes(table: Table, esn: string, ips: set<string>)
    ensures forall i, e :: Routes(RemoveSpecific(table, esn, ips), i, e) <==>
                           Routes(table, i, e) && !(e == esn && i in ips)
    ensures WellFormed(table) ==> WellFormed(RemoveSpecific(table, esn, ips))
  {
    forall ip | ip in table
      ensures forall e :: e in Without(table[ip], esn) <==> e in table[ip] && e != esn
      ensures NoDuplicates(table[ip]) ==> NoDuplicates(Without(table[ip], esn))
    {
      WithoutElements(table[ip], esn);
    }
  }

  lemma {:induction false} WithoutTwice(esns: seq<string>, esn: string)
    ensures Without(Without(esns, esn), esn) == Without(esns, esn)
  {
    if esns == [] {
    } else {
      WithoutTwice(esns[..|esns| - 1], esn);
      if esns[|esns| - 1] != esn {
        assert Without(esns, esn)[..|Without(esns, esn)| - 1] == Without(esns[..|esns| - 1], esn);
      }
    }
  }

  /** Removing at one more IP. */
  lemma RemoveSpecificSnoc(table: Table, esn: string, ips: set<string>, ip: string)
    ensures RemoveSpecific(table, esn, ips + {ip}) ==
            var removed := RemoveSpecific(table, esn, ips);
            if ip !in removed then removed
            else if Without(removed[ip], esn) == [] then removed - {ip}
            else removed[ip := Without(removed[ip], esn)]
  {
    if ip in table {
      WithoutTwice(table[ip], esn);
    }
  }

  // ----- every reachable table -----

  datatype TableOp =
    | Add(ip: string, esn: string)
    | Remove(esn: string)
    | RemoveAt(esn: string, ips: set<string>)
    | Set(mappings: map<string, string>)

  function Apply(table: Table, op: TableOp): Table {
    match op
    case Add(ip, esn) => AddMapping(table, ip, esn)
    case Remove(esn) => RemoveEsn(table, esn)
    case RemoveAt(esn, ips) => RemoveSpecific(table, esn, ips)
    case Set(mappings) => SetMappings(mappings)
  }

  function ApplyAll(table: Table, ops: seq<TableOp>): Table {
    if ops == [] then table else Apply(ApplyAll(table, ops[..|ops| - 1]), ops[|ops| - 1])
  }

  lemma {:induction false} ReachableTablesWellFormed(ops: seq<TableOp>)
    ensures WellFormed(ApplyAll(map[], ops))
  {
    if ops == [] {
    } else {
      var before := ApplyAll(map[], ops[..|ops| - 1]);
      ReachableTablesWellFormed(ops[..|ops| - 1]);
      match ops[|ops| - 1]
      case Add(ip, esn) => AddMappingRoutes(before, ip, esn);
      case Remove(esn) => RemoveEsnRoutes(before, esn);
      case RemoveAt(esn, ips) => RemoveSpecificRoutes(before, esn, ips);
      case Set(mappings) =>
    }
  }

  // ----- the order of a list -----

  /** When the camera last joined the IP: the number of operations up to then. */
  function Joined(ops: seq<TableOp>, ip: string, esn: string): nat {
    if ops == [] then 0
    else if Routes(ApplyAll(map[], ops), ip, esn) && !Routes(ApplyAll(map[], Front(ops)), ip, esn) then |ops|
    else Joined(Front(ops), ip, esn)
  }

  ghost predicate Ranked(esns: seq<string>, rank: string -> int) {
    forall j, k :: 0 <= j < k < |esns| ==> rank(esns[j]) < rank(esns[k])
  }

  /** Filtering keeps the order. */
  lemma {:induction false} FiltersRanked(esns: seq<string>, esn: string, rank: string -> int)
    requires Ranked(esns, rank)
    ensures Ranked(Without(esns, esn), rank) && Ranked(ValidOnly(esns), rank)
  {
    if esns == [] {
    } else {
      var front := Front(esns);
      FiltersRanked(front, esn, rank);
      WithoutElements(front, esn);
      ValidOnlyElements(front);
      hide IsValidEsn;
      var without, valid := Without(front, esn), ValidOnly(front);
      assert forall j :: 0 <= j < |without| ==> without[j] in without && without[j] in front;
      assert forall j :: 0 <= j < |valid| ==> valid[j] in valid && valid[j] in front;
    }
  }

  lemma {:induction false} JoinedBefore(ops: seq<TableOp>, ip: string, esn: string)
    ensures Joined(ops, ip, esn) <= |ops|
  {
    hide Routes;
    if ops == [] {
    } else {
      JoinedBefore(Front(ops), ip, esn);
    }
  }

  lemma SetMappingsRoutes(mappings: map<string, string>)
    ensures forall ip, esn :: Routes(SetMappings(mappings), ip, esn) <==> ip in mappings && mappings[ip] == esn
    ensures forall ip :: ip in SetMappings(mappings) ==> |SetMappings(mappings)[ip]| == 1
  {
  }

  /** One operation leaves the cameras of an IP in their order, newcomers last. */
  lemma OpRanked(table: Table, op: TableOp, ip: string, rank: string -> int, rank': string -> int)
    requires ip in Apply(table, op) && (ip in table ==> Ranked(table[ip], rank))
    requires forall e :: Routes(table, ip, e) && Routes(Apply(table, op), ip, e) ==> rank'(e) == rank(e)
    requires forall e, f :: Routes(table, ip, e) && !Routes(table, ip, f) && Routes(Apply(table, op), ip, f) ==>
               rank'(e) < rank'(f) || !Routes(Apply(table, op), ip, e)
    ensures Ranked(Apply(table, op)[ip], rank')
  {
    match op
    case Add(i, esn) =>
      AddRanked(table, i, esn, ip, rank, rank');
    case Remove(esn) =>
      FiltersRanked(table[ip], esn, rank);
      WithoutElements(table[ip], esn);
      hide Ranked, WellFormed;
      RankedSame(Without(table[ip], esn), rank, rank');
    case RemoveAt(esn, ips) =>
      FiltersRanked(table[ip], esn, rank);
      WithoutElements(table[ip], esn);
      hide Ranked, WellFormed;
      RankedSame(Apply(table, op)[ip], rank, rank');
    case Set(mappings) =>
  }

  lemma RankedSame(esns: seq<string>, rank: string -> int, rank': string -> int)
    requires Ranked(esns, rank) && forall e :: e in esns ==> rank'(e) == rank(e)
    ensures Ranked(esns, rank')
  {
  }

  lemma AddRanked(table: Table, i: string, esn: string, ip: string, rank: string -> int, rank': string -> int)
    requires ip in AddMapping(table, i, esn) && (ip in table ==> Ranked(table[ip], rank))
    requires forall e :: Routes(table, ip, e) && Routes(AddMapping(table, i, esn), ip, e) ==> rank'(e) == rank(e)
    requires forall e, f ::
               Routes(table, ip, e) && !Routes(table, ip, f) && Routes(AddMapping(table, i, esn), ip, f) ==>
                 rank'(e) < rank'(f) || !Routes(AddMapping(table, i, esn), ip, e)
    ensures Ranked(AddMapping(table, i, esn)[ip], rank')
  {
    if ip in table {
      forall e | e in table[ip] ensures rank'(e) == rank(e) && (esn !in table[ip] && i == ip ==> rank(e) < rank'(esn)) {
        assert Routes(table, ip, e);
      }
    }
  }

  /** In every reachable table the cameras of an IP are listed in the order in which
      they last joined it, and so are those an emission is fanned out to. */
  lemma {:induction false} ReachableTablesInOrder(ops: seq<TableOp>, fallback: string, ip: string)
    ensures var table := ApplyAll(map[], ops);
            (ip in table ==> Ranked(table[ip], e => Joined(ops, ip, e))) &&
            Ranked(Resolve(table, fallback, ip), e => Joined(ops, ip, e))
  {
    var rank := e => Joined(ops, ip, e);
    var table := ApplyAll(map[], ops);
    if ip in table {
      var front := Front(ops);
      var before := ApplyAll(map[], front);
      ReachableTablesInOrder(front, fallback, ip);
      forall e ensures Joined(front, ip, e) <= |front| {
        JoinedBefore(front, ip, e);
      }
      hide Apply, Ranked;
      OpRanked(before, Last(ops), ip, e => Joined(front, ip, e), rank);
      FiltersRanked(table[ip], "", rank);
    }
    assert Ranked(Resolve(table, fallback, ip), rank);
  }

  /** A fan-out list: not empty, no camera twice, every ESN of the wire format. */
  ghost predicate IsFanOut(esns: seq<string>) {
    esns != [] && NoDuplicates(esns) && forall e :: e in esns ==> IsValidEsn(e)
  }

  lemma ResolveIsFanOut(table: Table, fallback: string, ip: string)
    requires WellFormed(table)
    ensures IsFanOut(Resolve(table, fallback, ip))
    ensures ip in table && (exists e :: e in table[ip] && IsValidEsn(e)) ==>
            forall e :: e in Resolve(table, fallback, ip) <==> e in table[ip] && IsValidEsn(e)
  {
    if ip in table {
      ValidOnlyElements(table[ip]);
    }
  }

  /** Whatever the configuration history, every emission has a proper fan-out. */
  lemma ReachableFanOut(ops: seq<TableOp>, fallback: string, ip: string)
    ensures IsFanOut(Resolve(ApplyAll(map[], ops), fallback, ip))
  {
    ReachableTablesWellFormed(ops);
    ResolveIsFanOut(ApplyAll(map[], ops), fallback, ip);
  }

  // ----- the table object -----

  class EsnTable {
    var ipToEsns: Table
    var esn: string
    ghost var published: seq<Table>  // the table after each critical section

    constructor ()
      ensures ipToEsns == map[] && esn == DEFAULT_ESN && published == []
    {
      ipToEsns, esn, published := map[], DEFAULT_ESN, [];
    }

    method SetESN(esn: string)
      modifies this`esn
      ensures this.esn == esn
    {
      this.esn := esn;
    }

    method SetIPESNMappings(mappings: map<string, string>)
      modifies this`ipToEsns, this`published
      ensures ipToEsns == SetMappings(mappings) && published == old(published) + [ipToEsns]
    {
      ipToEsns := map[];
      var remaining := mappings.Keys;
      while remaining != {}
        invariant remaining <= mappings.Keys
        invariant ipToEsns.Keys == mappings.Keys - remaining
        invariant forall ip :: ip in ipToEsns ==> ipToEsns[ip] == [mappings[ip]]
        invariant published == old(published)
        decreases remaining
      {
        var ip :| ip in remaining;
        ipToEsns := ipToEsns[ip := [mappings[ip]]];
        remaining := remaining - {ip};
      }
      published := published + [ipToEsns];
    }

    method AddIPESNMapping(ip: string, esn: string)
      modifies this`ipToEsns, this`published
      ensures ipToEsns == AddMapping(old(ipToEsns), ip, esn) && published == old(published) + [ipToEsns]
    {
      var present := if ip in ipToEsns then ipToEsns[ip] else [];
      var found := false;
      for i := 0 to |present|
        invariant found <==> esn in present[..i]
        invariant unchanged(this)
      {
        if present[i] == esn {
          found := true;
        }
      }
      assert present[..|present|] == present;
      if !found {
        ipToEsns := ipToEsns[ip := present + [esn]];
      }
      published := published + [ipToEsns];
    }

    /** The inner loop shared by the two removals: all ESNs but one. */
    method KeepOthers(mapped: seq<string>, esn: string) returns (kept: seq<string>)
      ensures kept == Without(mapped, esn)
    {
      kept := [];
      for i := 0 to |mapped|
        invariant kept == Without(mapped[..i], esn)
      {
        assert mapped[..i + 1][..i] == mapped[..i];
        if mapped[i] != esn {
          kept := kept + [mapped[i]];
        }
      }
      assert mapped[..|mapped|] == mapped;
    }

    method RemoveESNMappings(esn: string)
      modifies this`ipToEsns, this`published
      ensures ipToEsns == RemoveEsn(old(ipToEsns), esn) && published == old(published) + [ipToEsns]
    {
      var before := ipToEsns;
      var remaining := ipToEsns.Keys;
      while remaining != {}
        invariant remaining <= before.Keys
        invariant forall ip :: ip in ipToEsns <==> ip in before && (ip in remaining || Without(before[ip], esn) != [])
        invariant forall ip :: ip in ipToEsns ==>
                    ipToEsns[ip] == if ip in remaining then before[ip] else Without(before[ip], esn)
        invariant published == old(published)
        decreases remaining
      {
        var ip :| ip in remaining;
        var kept := KeepOthers(before[ip], esn);
        if |kept| == 0 {
          ipToEsns := ipToEsns - {ip};
        } else {
          ipToEsns := ipToEsns[ip := kept];
        }
        remaining := remaining - {ip};
      }
      published := published + [ipToEsns];
    }

    method RemoveSpecificIPESNMappings(esn: string, ipsToRemove: seq<string>)
      modifies this`ipToEsns, this`published
      ensures ipToEsns == RemoveSpecific(old(ipToEsns), esn, set ip | ip in ipsToRemove)
      ensures published == old(published) + [ipToEsns]
    {
      ghost var done: set<string> := {};
      for i := 0 to |ipsToRemove|
        invariant done == set ip | ip in ipsToRemove[..i]
        invariant ipToEsns == RemoveSpecific(old(ipToEsns), esn, done)
        invariant published == old(published)
      {
        var ip := ipsToRemove[i];
        RemoveSpecificSnoc(old(ipToEsns), esn, done, ip);
        if ip in ipToEsns {
          var kept := KeepOthers(ipToEsns[ip], esn);
          if |kept| == 0 {
            ipToEsns := ipToEsns - {ip};
          } else {
            ipToEsns := ipToEsns[ip := kept];
          }
        }
        assert ipsToRemove[..i + 1] == ipsToRemove[..i] + [ip];
        done := done + {ip};
      }
      assert ipsToRemove[..|ipsToRemove|] == ipsToRemove;
      published := published + [ipToEsns];
    }

    method GetIPESNMappings() returns (mappings: map<string, string>)
      ensures mappings == FirstEsns(ipToEsns)
    {
      mappings := map[];
      var remaining := ipToEsns.Keys;
      while remaining != {}
        invariant remaining <= ipToEsns.Keys
        invariant forall ip :: ip in mappings <==> ip in ipToEsns && ip !in remaining && ipToEsns[ip] != []
        invariant forall ip :: ip in mappings ==> mappings[ip] == ipToEsns[ip][0]
        decreases remaining
      {
        var ip :| ip in remaining;
        if |ipToEsns[ip]| > 0 {
          mappings := mappings[ip := ipToEsns[ip][0]];
        }
        remaining := remaining - {ip};
      }
    }

    method GetESNsForIP(ip: string) returns (esns: seq<string>)
      ensures esns == Resolve(ipToEsns, esn, ip)
    {
      if ip in ipToEsns && |ipToEsns[ip]| > 0 {
        var mapped := ipToEsns[ip];
        var valid := [];
        for i := 0 to |mapped|
          invariant valid == ValidOnly(mapped[..i])
        {
          assert mapped[..i + 1][..i] == mapped[..i];
          if IsValidEsn(mapped[i]) {
            valid := valid + [mapped[i]];
          }
        }
        assert mapped[..|mapped|] == mapped;
        if |valid| > 0 {
          return valid;
        }
      }
      if esn != "" && IsValidEsn(esn) {
        return [esn];
      }
      return [INVALID_ESN];
    }
  }
}
