/** From a camera's payload to its routes, over every history, in terms of the raw
    fields of the payload. */
module Notices {
  import opened Collections
  import opened Payload
  import opened Reading
  import opened Routing
  import opened Configuration
  import opened Reconfiguration
  import opened Settings

  // ----- the registers of a payload -----

  /** The register list of a payload; empty when it has none. */
  function Entries(payload: Event): seq<Json> {
    if "7eleven_registers" in payload && payload["7eleven_registers"].Arr?
    then payload["7eleven_registers"].items else []
  }

  /** The entry is an object with these two texts. */
  predicate Names(entry: Json, ip: string, terminal: string) {
    entry.Obj? && "ip_address" in entry.fields && entry.fields["ip_address"] == Str(ip) &&
    "terminal_number" in entry.fields && entry.fields["terminal_number"] == Str(terminal)
  }

  ghost predicate NamesKey(entry: Json, key: string) {
    exists ip, terminal :: Names(entry, ip, terminal) && key == ip + ":" + terminal
  }

  /** The entry has a key that no entry before it has. */
  ghost predicate IsFirst(entries: seq<Json>, i: nat) {
    i < |entries| && exists key :: NamesKey(entries[i], key) && forall j :: 0 <= j < i ==> !NamesKey(entries[j], key)
  }

  ghost function FirstsAt(entries: seq<Json>): set<nat> {
    set i: nat | i < |entries| && IsFirst(entries, i)
  }

  function EntriesAt(entries: seq<Json>, indices: seq<nat>): seq<Json> {
    seq(|indices|, j requires 0 <= j < |indices| => if indices[j] < |entries| then entries[indices[j]] else Null)
  }

  /** The first entry of every key, in order. */
  ghost function Firsts(entries: seq<Json>): seq<Json> {
    EntriesAt(entries, Indices(|entries|, FirstsAt(entries)))
  }

  lemma KeyRead(entry: Json)
    ensures forall key :: KeyOf(entry) == Some(key) <==> NamesKey(entry, key)
    ensures Identity(entry).Some? <==> KeyOf(entry).Some?
    ensures forall ip, terminal :: Identity(entry) == Some((ip, terminal)) <==> Names(entry, ip, terminal)
  {
    if Identity(entry).Some? {
      var identity := Identity(entry).value;
      assert Names(entry, identity.0, identity.1);
    }
  }

  lemma FirstRead(entries: seq<Json>, i: nat)
    requires i < |entries|
    ensures IsFirst(entries, i) <==> KeyOf(entries[i]).Some? && !HasKey(entries[..i], KeyOf(entries[i]).value)
  {
    hide NamesKey, KeyOf, Identity;
    forall j | 0 <= j <= i ensures forall key :: KeyOf(entries[j]) == Some(key) <==> NamesKey(entries[j], key) {
      KeyRead(entries[j]);
    }
    forall key ensures HasKey(entries[..i], key) <==> exists j :: 0 <= j < i && KeyOf(entries[j]) == Some(key) {
      if j :| 0 <= j < i && KeyOf(entries[j]) == Some(key) {
        assert entries[..i][j] in entries[..i];
      }
    }
    hide HasKey;
    assert KeyOf(entries[i]).Some? ==> NamesKey(entries[i], KeyOf(entries[i]).value);
  }

  lemma {:induction false} DeduplicatedRead(entries: seq<Json>)
    ensures Deduplicated(entries) == Firsts(entries)
  {
    hide KeyOf, HasKey, IsFirst, Indices, EntriesAt;
    if entries == [] {
      NoFirsts();
    } else {
      DeduplicatedRead(Front(entries));
      assert entries[..|entries| - 1] == Front(entries);
      FirstRead(entries, |entries| - 1);
      FirstsSnoc(entries);
      hide Firsts;
    }
  }

  lemma NoFirsts()
    ensures Firsts([]) == []
  {
  }

  lemma FirstsSnoc(entries: seq<Json>)
    requires entries != []
    ensures Firsts(entries) == Firsts(Front(entries)) + if IsFirst(entries, |entries| - 1) then [Last(entries)] else []
  {
    hide IsFirst;
    var n, front := |entries|, Front(entries);
    forall i: nat | i < n - 1 ensures i in FirstsAt(entries) <==> i in FirstsAt(front) {
      FirstSame(entries, i);
    }
    IndicesMeaning(n - 1, FirstsAt(front));
    IndicesSame(n - 1, FirstsAt(front), FirstsAt(entries));
    var at := Indices(n - 1, FirstsAt(front));
    assert n - 1 in FirstsAt(entries) <==> IsFirst(entries, n - 1);
    assert Indices(n, FirstsAt(entries)) == at + if IsFirst(entries, n - 1) then [n - 1] else [];
    hide FirstsAt, Indices;
    EntriesAtFront(entries, at);
  }

  lemma EntriesAtFront(entries: seq<Json>, at: seq<nat>)
    requires entries != [] && forall i :: i in at ==> i < |entries| - 1
    ensures EntriesAt(entries, at) == EntriesAt(Front(entries), at)
    ensures EntriesAt(entries, at + [|entries| - 1]) == EntriesAt(Front(entries), at) + [Last(entries)]
    ensures EntriesAt(entries, at + []) == EntriesAt(Front(entries), at)
  {
    assert at + [] == at;
    assert forall j :: 0 <= j < |at| ==> at[j] in at;
  }

  lemma FirstSame(entries: seq<Json>, i: nat)
    requires i < |entries| - 1
    ensures IsFirst(entries, i) <==> IsFirst(Front(entries), i)
  {
    hide NamesKey;
  }

  ghost predicate NamesAny(payload: Event) {
    exists entry, ip, terminal :: entry in Entries(payload) && Names(entry, ip, terminal)
  }

  /** A payload makes a vendor configuration if and only if its register list holds an
      object with texts for IP and terminal; the configuration holds the first entry
      of every IP and terminal, in order. */
  lemma GeneratedRead(payload: Event)
    ensures Generated(payload).Some? <==> NamesAny(payload)
    ensures Generated(payload).Some? ==>
              Generated(payload).value == VendorConfig("7eleven_registers", 6334, Firsts(Entries(payload)))
  {
    var entries := Entries(payload);
    DeduplicatedRead(entries);
    DeduplicatedKeys(entries);
    hide KeyOf, Identity, Names, Firsts, HasKey, Deduplicated;
    if NamesAny(payload) {
      var entry, ip, terminal :| entry in entries && Names(entry, ip, terminal);
      KeyRead(entry);
      KeptAny(entries, entry);
    }
    if Deduplicated(entries) != [] {
      var entry := Deduplicated(entries)[0];
      assert entry in Deduplicated(entries);
      KeyRead(entry);
      assert Names(entry, Identity(entry).value.0, Identity(entry).value.1);
    }
  }

  lemma KeptAny(entries: seq<Json>, entry: Json)
    requires entry in entries && KeyOf(entry).Some?
    ensures Deduplicated(entries) != []
  {
    FirstIsKept(entries, entry);
    hide KeyOf;
  }

  // ----- what is stored after every history -----

  /** The i-th occurrence is the camera's last readable notice. */
  ghost predicate IsLastNotice(events: seq<Occurrence>, esn: string, i: nat, payload: Event) {
    i < |events| && events[i] == Notice(esn, Some(payload)) && NoNoticeAfter(events, esn, i + 1)
  }

  ghost predicate NoNoticeAfter(events: seq<Occurrence>, esn: string, from: nat) {
    forall j :: from <= j < |events| ==> !(events[j].Notice? && events[j].esn == esn && events[j].payload.Some?)
  }

  /** What is stored for the camera is what this payload says. */
  ghost predicate StoredAs(configs: Configs, esn: string, payload: Event) {
    if NamesAny(payload) then
      esn in configs &&
      configs[esn] ==
        ESNBridgeConfig(esn, payload, VendorConfig("7eleven_registers", 6334, Firsts(Entries(payload))))
    else esn !in configs
  }

  /** After every history, what is stored for a camera is what its last readable
      notice says, and nothing when there was none. */
  lemma {:induction false} StoredOfRun(events: seq<Occurrence>, esn: string)
    requires ValidRun(events)
    ensures forall i: nat, payload :: IsLastNotice(events, esn, i, payload) ==>
              StoredAs(Run(events).configs, esn, payload)
    ensures NoNoticeAfter(events, esn, 0) ==> esn !in Run(events).configs
  {
    if events == [] {
    } else {
      var front, last := Front(events), Last(events);
      StoredOfRun(front, esn);
      hide Generated, NamesAny, Firsts, Replay;
      if last.Notice? && last.payload.Some? && last.esn == esn {
        GeneratedRead(last.payload.value);
        assert events[|events| - 1] == last;
        assert StoredAs(Run(events).configs, esn, last.payload.value);
      } else {
        assert esn in Run(events).configs <==> esn in Run(front).configs;
        assert esn in Run(front).configs ==> Run(events).configs[esn] == Run(front).configs[esn];
        hide Run, ValidRun;
        forall i: nat, payload | IsLastNotice(events, esn, i, payload) ensures IsLastNotice(front, esn, i, payload) {
          assert forall j :: 0 <= j < |front| ==> front[j] == events[j];
        }
        assert NoNoticeAfter(events, esn, 0) ==> NoNoticeAfter(front, esn, 0) by {
          assert forall j :: 0 <= j < |front| ==> front[j] == events[j];
        }
      }
    }
  }

  // ----- the active vendor -----

  ghost predicate EmptyAfter(events: seq<Occurrence>, j: nat) {
    j <= |events| && ValidRun(events[..j]) && Run(events[..j]).configs == map[]
  }

  /** The i-th occurrence gave the service its first configuration, and it has had one
      ever since. */
  ghost predicate Activates(events: seq<Occurrence>, i: nat, payload: Event) {
    i < |events| && events[i].Notice? && events[i].payload == Some(payload) &&
    EmptyAfter(events, i) && forall j: nat :: i < j <= |events| ==> !EmptyAfter(events, j)
  }

  /** After every history the active vendor entry is the one of the notice that ended
      the last time without configurations. */
  lemma {:induction false} ActiveOfRun(events: seq<Occurrence>)
    requires ValidRun(events)
    ensures Run(events).active.Some? <==> Run(events).configs != map[]
    ensures Run(events).active.Some? ==>
              exists i: nat, payload :: Activates(events, i, payload) &&
                Run(events).active == Some(VendorConfig("7eleven_registers", 6334, Firsts(Entries(payload))))
  {
    ServiceOfRun(events);
    hide Stored, Covering;
    if events != [] && Run(events).active.Some? {
      var front, n := Front(events), |events| - 1;
      ServiceOfRun(front);
      ActiveOfRun(front);
      assert events[..n] == front && events[..n + 1] == events;
      assert !EmptyAfter(events, n + 1);
      ActiveStep(events);
      hide Run, ValidRun, Firsts, Activates;
      if Run(front).active.Some? {
        var i: nat, payload :| Activates(front, i, payload) &&
          Run(front).active == Some(VendorConfig("7eleven_registers", 6334, Firsts(Entries(payload))));
        StillActive(events, i, payload);
      } else {
        NewlyActive(events);
      }
    }
  }

  lemma ActiveStep(events: seq<Occurrence>)
    requires ValidRun(events) && events != [] && Run(events).active.Some?
    ensures Run(Front(events)).active.Some? ==> Run(events).active == Run(Front(events)).active
    ensures Run(Front(events)).active.None? ==>
              Last(events).Notice? && Last(events).payload.Some? &&
              Run(events).active == Generated(Last(events).payload.value)
  {
    hide Generated, Replay, Notify;
  }

  lemma NewlyActive(events: seq<Occurrence>)
    requires ValidRun(events) && events != [] && !EmptyAfter(events, |events|)
    requires Run(events).active.Some? && Run(Front(events)).active.None? && EmptyAfter(events, |events| - 1)
    ensures exists i: nat, payload :: Activates(events, i, payload) &&
              Run(events).active == Some(VendorConfig("7eleven_registers", 6334, Firsts(Entries(payload))))
  {
    hide Run, ValidRun, Firsts, EmptyAfter, Activates, NamesAny, Generated;
    ActiveStep(events);
    GeneratedRead(Last(events).payload.value);
    LastActivates(events, Last(events).payload.value);
  }

  lemma LastActivates(events: seq<Occurrence>, payload: Event)
    requires events != [] && !EmptyAfter(events, |events|) && EmptyAfter(events, |events| - 1)
    requires Last(events).Notice? && Last(events).payload == Some(payload)
    ensures Activates(events, |events| - 1, payload)
  {
    hide EmptyAfter;
  }

  lemma StillActive(events: seq<Occurrence>, i: nat, payload: Event)
    requires events != [] && Activates(Front(events), i, payload) && !EmptyAfter(events, |events|)
    ensures Activates(events, i, payload)
  {
    hide Run, ValidRun;
    forall j: nat | j < |events| ensures EmptyAfter(events, j) <==> EmptyAfter(Front(events), j) {
      assert events[..j] == Front(events)[..j];
    }
  }

  // ----- the running vendor -----

  /** A signal brings the running vendor in line with the configurations; a notice
      starts and stops nothing, and one that does not decode changes nothing. */
  lemma RunningOfRun(events: seq<Occurrence>)
    requires ValidRun(events) && events != []
    ensures var before, after := Run(Front(events)), Run(events);
            if Last(events).Signal? then
              after.configs == before.configs && (after.routes.Some? <==> before.configs != map[]) &&
              (before.routes.Some? && after.routes.Some? ==> after.routes == before.routes)
            else
              (after.routes.Some? <==> before.routes.Some?) && (Last(events).payload.None? ==> after == before)
  {
    ServiceOfRun(Front(events));
    hide Stored, Covering, Replay, Generated;
  }

  /** Text keys without capitals, and texts or null where the vendor looks. */
  predicate PlainEntry(entry: Json) {
    entry.Obj? && (forall k, i :: k in entry.fields && 0 <= i < |k| ==> k[i] < '\U{0080}' && !('A' <= k[i] <= 'Z')) &&
    forall k :: k in entry.fields && k in {"store_number", "terminal_number", "ip_address"} ==>
      entry.fields[k].Str? || entry.fields[k].Null?
  }

  ghost predicate PlainPayload(payload: Event) {
    forall entry :: entry in Firsts(Entries(payload)) ==> PlainEntry(entry)
  }

  lemma PlainSpelling(entry: Json, k: string, name: string)
    requires PlainEntry(entry) && k in entry.fields && FoldsTo(k, name)
    ensures k == name
  {
    assert forall i :: 0 <= i < |k| ==> Folded(k[i]) == k[i];
  }

  lemma PlainRead(entry: Json)
    requires PlainEntry(entry)
    ensures Readable(entry)
    ensures forall ip, terminal :: Names(entry, ip, terminal) ==> TextValue(entry.fields, "ip_address") == ip
  {
    forall k, name | k in entry.fields && FoldsTo(k, name) ensures k == name {
      PlainSpelling(entry, k, name);
    }
    hide FoldsTo, TextValue;
    forall ip, terminal | Names(entry, ip, terminal) ensures TextValue(entry.fields, "ip_address") == ip {
      KeyRead(entry);
      AsciiIpAsWritten(entry);
    }
  }

  /** The text under a key, "" when there is none. */
  function Written(fields: Event, name: string): string {
    if name in fields && fields[name].Str? then fields[name].s else ""
  }

  lemma PlainText(entry: Json, name: string)
    requires PlainEntry(entry) && name in {"store_number", "terminal_number", "ip_address"}
    ensures TextField(entry.fields, name) == Some(Written(entry.fields, name))
  {
    forall k | k in entry.fields && FoldsTo(k, name) ensures k == name {
      PlainSpelling(entry, k, name);
    }
    SelfFolds(name);
    hide FoldsTo;
    var texts := set k | k in Spellings(entry.fields, name) && entry.fields[k].Str?;
    assert name in entry.fields ==> name in Spellings(entry.fields, name);
    assert texts == if name in entry.fields && entry.fields[name].Str? then {name} else {};
  }

  lemma SelfFolds(name: string)
    requires name in {"store_number", "terminal_number", "ip_address"}
    ensures FoldsTo(name, name)
  {
    assert forall i :: 0 <= i < |name| ==> Folded(name[i]) == name[i];
  }

  /** The vendor reads store, terminal and IP where a plain entry has them. */
  lemma PlainRegister(entry: Json)
    requires PlainEntry(entry)
    ensures ParseRegister(entry) == Some(RegisterConfig(Written(entry.fields, "store_number"),
                                                        Written(entry.fields, "terminal_number"),
                                                        Written(entry.fields, "ip_address")))
  {
    hide PlainEntry, TextField, Written;
    PlainText(entry, "store_number");
    PlainText(entry, "terminal_number");
    PlainText(entry, "ip_address");
    assert entry.Obj? by {
      PlainIsObject(entry);
    }
  }

  lemma PlainIsObject(entry: Json)
    requires PlainEntry(entry)
    ensures entry.Obj?
  {
  }

  /** The vendor reads this IP in the first entry of some IP and terminal. */
  ghost predicate FirstReads(payload: Event, ip: string) {
    exists i: nat :: IsFirst(Entries(payload), i) && ReadsIp(Entries(payload)[i], ip)
  }

  predicate ReadsIp(entry: Json, ip: string) {
    entry.Obj? && TextValue(entry.fields, "ip_address") == ip
  }

  /** The first entry of some IP and terminal has this IP. */
  ghost predicate FirstNames(payload: Event, ip: string) {
    exists i: nat, terminal :: IsFirst(Entries(payload), i) && Names(Entries(payload)[i], ip, terminal)
  }

  ghost predicate AllReadable(payload: Event) {
    forall entry :: entry in Firsts(Entries(payload)) ==> Readable(entry)
  }

  lemma FirstsElements(entries: seq<Json>)
    ensures forall i: nat :: IsFirst(entries, i) ==> entries[i] in Firsts(entries)
    ensures forall entry :: entry in Firsts(entries) ==> exists i: nat :: IsFirst(entries, i) && entries[i] == entry
  {
    var at := Indices(|entries|, FirstsAt(entries));
    IndicesMeaning(|entries|, FirstsAt(entries));
    hide IsFirst, Indices;
    forall i: nat | IsFirst(entries, i) && i < |entries| ensures entries[i] in Firsts(entries) {
      assert i in at;
      var j :| 0 <= j < |at| && at[j] == i;
      assert Firsts(entries)[j] == entries[i];
    }
    forall entry | entry in Firsts(entries) ensures exists i: nat :: IsFirst(entries, i) && entries[i] == entry {
      var j :| 0 <= j < |at| && Firsts(entries)[j] == entry;
      assert at[j] in at;
      assert IsFirst(entries, at[j]) && entries[at[j]] == entry;
    }
  }

  lemma FirstNamed(entries: seq<Json>, entry: Json)
    requires entry in Firsts(entries)
    ensures Identity(entry).Some? && Names(entry, Identity(entry).value.0, Identity(entry).value.1)
  {
    DeduplicatedRead(entries);
    DeduplicatedKeys(entries);
    KeyRead(entry);
    hide Identity, Names, Firsts, Deduplicated;
  }

  /** The IPs of the configuration are those read in the payload's first entries. */
  lemma FirstIps(payload: Event, ip: string)
    ensures ip in Ips(VendorConfig("7eleven_registers", 6334, Firsts(Entries(payload)))) <==> FirstReads(payload, ip)
  {
    hide TextValue, Firsts, IsFirst, Names, Identity;
    var entries := Entries(payload);
    FirstsElements(entries);
    forall entry | entry in Firsts(entries) ensures Identity(entry).Some? && entry.Obj? {
      FirstNamed(entries, entry);
      NamedIsObject(entry);
    }
  }

  lemma NamedIsObject(entry: Json)
    requires Identity(entry).Some?
    ensures entry.Obj?
  {
  }

  /** In a payload of plain entries the vendor reads the IPs that are written, and
      everything can be read. */
  lemma PlainReads(payload: Event)
    requires PlainPayload(payload)
    ensures AllReadable(payload) && forall ip :: FirstReads(payload, ip) <==> FirstNames(payload, ip)
  {
    var entries := Entries(payload);
    FirstsElements(entries);
    hide PlainEntry, Firsts, IsFirst, Readable;
    forall entry | entry in Firsts(entries)
      ensures Readable(entry)
      ensures forall ip :: ReadsIp(entry, ip) <==> exists terminal :: Names(entry, ip, terminal)
    {
      PlainRead(entry);
      FirstNamed(entries, entry);
      hide TextValue;
    }
    hide ReadsIp, Names;
  }

  /** What is stored, as the vendor reads it. */
  lemma ConfiguredRead(configs: Configs, esn: string, payload: Event)
    requires StoredAs(configs, esn, payload)
    ensures forall ip :: Configured(configs, ip, esn) <==> FirstReads(payload, ip)
    ensures esn in configs ==> (Parses(configs[esn].vendor) <==> AllReadable(payload))
  {
    hide Readable, Firsts, IsFirst, Ips, NamesAny, FirstReads;
    forall ip ensures ip in Ips(VendorConfig("7eleven_registers", 6334, Firsts(Entries(payload)))) <==>
                      FirstReads(payload, ip)
    {
      FirstIps(payload, ip);
    }
    FirstReadsAny(payload);
    ParsesIffReadable(Firsts(Entries(payload)));
  }

  lemma FirstReadsAny(payload: Event)
    ensures forall ip :: FirstReads(payload, ip) ==> NamesAny(payload)
  {
    hide Names, NamesKey;
    forall ip | FirstReads(payload, ip) ensures NamesAny(payload) {
      var entries := Entries(payload);
      var i: nat :| IsFirst(entries, i) && ReadsIp(entries[i], ip);
      var key :| NamesKey(entries[i], key);
      SomeNames(entries[i], key);
      assert entries[i] in entries;
    }
  }

  lemma SomeNames(entry: Json, key: string)
    requires NamesKey(entry, key)
    ensures exists ip, terminal :: Names(entry, ip, terminal)
  {
    hide Names;
  }

  /** After every history a running vendor routes every first entry of a camera's last
      readable notice to that camera, if the vendor can read them all. */
  lemma RoutedOfRun(events: seq<Occurrence>, esn: string, i: nat, payload: Event, ip: string)
    requires ValidRun(events) && Run(events).routes.Some?
    requires IsLastNotice(events, esn, i, payload) && AllReadable(payload) && FirstReads(payload, ip)
    ensures Routes(Run(events).routes.value, ip, esn)
  {
    hide AllReadable, FirstReads, StoredAs, Ips, Run, ValidRun, Routes, IsLastNotice, Parses;
    ServiceOfRun(events);
    StoredOfRun(events, esn);
    ConfiguredRead(Run(events).configs, esn, payload);
  }

  /** Over every tidy history it routes nothing else to that camera. */
  lemma RoutedExactlyOfRun(events: seq<Occurrence>, esn: string, i: nat, payload: Event)
    requires ValidRun(events) && Tidy(events) && Run(events).routes.Some? && IsLastNotice(events, esn, i, payload)
    ensures forall ip :: Routes(Run(events).routes.value, ip, esn) <==> FirstReads(payload, ip)
  {
    hide FirstReads, StoredAs, Configured, Run, ValidRun, Routes, IsLastNotice, Parses, Tidy, AllReadable;
    RoutesOfRun(events);
    StoredOfRun(events, esn);
    ConfiguredRead(Run(events).configs, esn, payload);
  }

  /** What a notice leaves routed to its camera: when it names registers the vendor
      cannot read, what was; otherwise its first entries and, if it has any, what was
      routed to the camera behind another one. */
  ghost predicate StillRouted(before: Table, esn: string, payload: Event, ip: string) {
    if NamesAny(payload) && !AllReadable(payload) then Routes(before, ip, esn)
    else FirstReads(payload, ip) || (NamesAny(payload) && Routes(before, ip, esn) && before[ip][0] != esn)
  }

  /** A readable notice to a running vendor changes the routes of its camera alone. */
  lemma NoticeRoutes(events: seq<Occurrence>, esn: string, payload: Event)
    requires ValidRun(events) && events != [] && Last(events) == Notice(esn, Some(payload))
    requires Run(Front(events)).routes.Some? && Run(events).routes.Some?
    ensures var before, after := Run(Front(events)).routes.value, Run(events).routes.value;
            forall ip, e :: Routes(after, ip, e) <==>
              if e == esn then StillRouted(before, esn, payload, ip) else Routes(before, ip, e)
  {
    hide AllReadable, FirstReads, Generated, Handle, Routes, Firsts, Clean, Ips, NamesAny, Parses, Leads;
    var before := Run(Front(events)).routes.value;
    assert Run(events) == Updated(Run(Front(events)), esn, Some(payload));
    GeneratedRead(payload);
    FirstReadsAny(payload);
    RoutedLeads(before, esn);
    if NamesAny(payload) {
      var vendor := Generated(payload).value;
      GeneratedClean(payload);
      ParsesRead(payload);
      HandleRoutes(before, esn, vendor);
      forall ip ensures ip in Ips(vendor) <==> FirstReads(payload, ip) {
        FirstIps(payload, ip);
      }
    } else {
      RemovalIsRemoveEsn(before, esn);
      RemoveEsnRoutes(before, esn);
    }
  }

  lemma RoutedLeads(table: Table, esn: string)
    ensures forall ip :: Routes(table, ip, esn) ==> (Leads(table, ip, esn) <==> table[ip][0] == esn)
  {
  }

  lemma ParsesRead(payload: Event)
    ensures Parses(VendorConfig("7eleven_registers", 6334, Firsts(Entries(payload)))) <==> AllReadable(payload)
  {
    hide Readable, Firsts;
    ParsesIffReadable(Firsts(Entries(payload)));
  }
}
