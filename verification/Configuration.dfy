/** The configurations cameras send, and how duplicates are removed from them. */
module Configuration {
  import opened Collections
  import opened Payload
  import opened TextOrder

  const VENDOR_NAME := "7eleven_registers"
  const DEFAULT_PORT := 6334
  const IP_ADDRESS := "ip_address"

  datatype VendorConfig = VendorConfig(vendor: string, listenPort: nat, registers: seq<Json>)

  datatype RegisterConfig = RegisterConfig(storeNumber: string, terminalNumber: string, ipAddress: string)

  // ----- duplicates -----

  /** IP and terminal of a register entry that has both. */
  function Identity(reg: Json): Option<(string, string)> {
    if !reg.Obj? then None else
      var ip, terminal := StringAt(reg.fields, IP_ADDRESS), StringAt(reg.fields, "terminal_number");
      if ip.Some? && terminal.Some? then Some((ip.value, terminal.value)) else None
  }

  function JoinedKey(identity: (string, string)): string {
    identity.0 + ":" + identity.1
  }

  function KeyOf(reg: Json): Option<string> {
    if Identity(reg).Some? then Some(JoinedKey(Identity(reg).value)) else None
  }

  predicate HasKey(registers: seq<Json>, key: string) {
    exists r :: r in registers && KeyOf(r) == Some(key)
  }

  /** The first entry of every joined key; entries without IP or terminal go. */
  function Deduplicated(registers: seq<Json>): seq<Json> {
    if registers == [] then [] else
      var before, key := Deduplicated(Front(registers)), KeyOf(Last(registers));
      if key.Some? && !HasKey(Front(registers), key.value) then before + [Last(registers)] else before
  }

  lemma {:induction false} DeduplicatedKeys(registers: seq<Json>)
    ensures forall r :: r in Deduplicated(registers) ==> r in registers && KeyOf(r).Some?
    ensures forall key :: HasKey(Deduplicated(registers), key) <==> HasKey(registers, key)
    ensures forall i, j :: 0 <= i < j < |Deduplicated(registers)| ==>
              KeyOf(Deduplicated(registers)[i]) != KeyOf(Deduplicated(registers)[j])
  {
    hide KeyOf;
    if registers == [] {
    } else {
      var front, last := Front(registers), Last(registers);
      DeduplicatedKeys(front);
      assert registers == front + [last];
      var before, after := Deduplicated(front), Deduplicated(registers);
      forall key ensures HasKey(after, key) <==> HasKey(registers, key) {
        HasKeySnoc(front, last, key);
        HasKeySnoc(before, last, key);
        assert HasKey(before, key) <==> HasKey(front, key);
      }
      if after != before {
        assert !HasKey(before, KeyOf(last).value);
        forall i | 0 <= i < |before| ensures KeyOf(before[i]) != KeyOf(last) {
          assert before[i] in before;
        }
      }
    }
  }

  lemma HasKeySnoc(registers: seq<Json>, reg: Json, key: string)
    ensures HasKey(registers + [reg], key) <==> HasKey(registers, key) || KeyOf(reg) == Some(key)
  {
    hide KeyOf;
    if KeyOf(reg) == Some(key) {
      assert reg in registers + [reg];
    }
    if HasKey(registers, key) {
      var r :| r in registers && KeyOf(r) == Some(key);
      assert r in registers + [reg];
    }
  }

  /** Different registers never share a joined key. */
  ghost predicate KeysUnambiguous(registers: seq<Json>) {
    forall r, s :: r in registers && s in registers && KeyOf(r).Some? && KeyOf(r) == KeyOf(s) ==>
      Identity(r) == Identity(s)
  }

  ghost predicate HasIdentity(registers: seq<Json>, identity: (string, string)) {
    exists r :: r in registers && Identity(r) == Some(identity)
  }

  lemma {:induction false} FirstIsKept(registers: seq<Json>, r: Json)
    requires r in registers && KeyOf(r).Some?
    ensures exists s :: s in Deduplicated(registers) && s in registers && KeyOf(s) == KeyOf(r)
  {
    DeduplicatedKeys(registers);
    hide KeyOf;
    assert HasKey(registers, KeyOf(r).value);
    assert HasKey(Deduplicated(registers), KeyOf(r).value);
  }

  /** Deduplication keeps every distinct register exactly when joined keys are unambiguous. */
  lemma DeduplicationKeepsRegisters(registers: seq<Json>)
    ensures (forall identity :: HasIdentity(registers, identity) ==> HasIdentity(Deduplicated(registers), identity))
            <==> KeysUnambiguous(registers)
  {
    DeduplicatedKeys(registers);
    var kept := Deduplicated(registers);
    if KeysUnambiguous(registers) {
      forall identity | HasIdentity(registers, identity) ensures HasIdentity(kept, identity) {
        var r :| r in registers && Identity(r) == Some(identity);
        FirstIsKept(registers, r);
        hide Identity;
        var s :| s in kept && s in registers && KeyOf(s) == KeyOf(r);
        assert Identity(s) == Some(identity);
      }
    }
    if forall identity :: HasIdentity(registers, identity) ==> HasIdentity(kept, identity) {
      forall r, s | r in registers && s in registers && KeyOf(r).Some? && KeyOf(r) == KeyOf(s)
        ensures Identity(r) == Identity(s)
      {
        hide Identity, JoinedKey;
        assert HasIdentity(registers, Identity(r).value) && HasIdentity(registers, Identity(s).value);
        var r' :| r' in kept && Identity(r') == Identity(r);
        var s' :| s' in kept && Identity(s') == Identity(s);
        assert KeyOf(r') == KeyOf(s');
        SameKeySame(kept, r', s');
      }
    }
  }

  lemma SameKeySame(kept: seq<Json>, r: Json, s: Json)
    requires forall i, j :: 0 <= i < j < |kept| ==> KeyOf(kept[i]) != KeyOf(kept[j])
    requires r in kept && s in kept && KeyOf(r) == KeyOf(s)
    ensures r == s
  {
    hide KeyOf;
    var i :| 0 <= i < |kept| && kept[i] == r;
    var j :| 0 <= j < |kept| && kept[j] == s;
  }

  /** Keys are unambiguous when no terminal number contains a colon. */
  lemma NoColonUnambiguous(registers: seq<Json>)
    requires forall r :: r in registers && Identity(r).Some? ==> ':' !in Identity(r).value.1
    ensures KeysUnambiguous(registers)
  {
    forall r, s | r in registers && s in registers && KeyOf(r).Some? && KeyOf(r) == KeyOf(s)
      ensures Identity(r) == Identity(s)
    {
      hide Identity;
      JoinedKeyInjective(Identity(r).value, Identity(s).value);
    }
  }

  lemma JoinedKeyInjective(a: (string, string), b: (string, string))
    requires ':' !in a.1 && ':' !in b.1 && JoinedKey(a) == JoinedKey(b)
    ensures a == b
  {
    var key := JoinedKey(a);
    assert key[|a.0|] == ':' && key[|b.0|] == ':';
    assert forall i :: |a.0| < i < |key| ==> key[i] == a.1[i - |a.0| - 1];
    assert forall i :: |b.0| < i < |key| ==> key[i] == b.1[i - |b.0| - 1];
    assert |a.0| == |b.0|;
    assert a.0 == key[..|a.0|] == b.0 && a.1 == key[|a.0| + 1..] == b.1;
  }

  function RegisterJson(ip: string, terminal: string): Json {
    Obj(map["ip_address" := Str(ip), "terminal_number" := Str(terminal)])
  }

  /** With a colon in a terminal number a register can be lost. */
  lemma ColonLosesRegister()
    ensures var registers := [RegisterJson("a", "b:c"), RegisterJson("a:b", "c")];
            HasIdentity(registers, ("a:b", "c")) && !HasIdentity(Deduplicated(registers), ("a:b", "c"))
  {
    var r, s := RegisterJson("a", "b:c"), RegisterJson("a:b", "c");
    var registers := [r, s];
    assert Identity(r) == Some(("a", "b:c")) && Identity(s) == Some(("a:b", "c"));
    assert JoinedKey(("a", "b:c")) == "a:b:c" == JoinedKey(("a:b", "c"));
    assert s in registers && Front(registers) == [r] && Last(registers) == s;
    assert r in Front(registers) && HasKey(Front(registers), "a:b:c");
    assert Deduplicated(registers) == Deduplicated(Front(registers));
    DeduplicatedKeys(Front(registers));
    assert forall x :: x in Front(registers) ==> x == r;
    assert "a" != "a:b";
  }

  /** The loop of deduplicateRegisters. */
  method DeduplicateRegisters(registers: seq<Json>) returns (result: seq<Json>)
    ensures result == Deduplicated(registers)
  {
    var seen: set<string> := {};
    result := [];
    for i := 0 to |registers|
      invariant result == Deduplicated(registers[..i])
      invariant forall key :: key in seen <==> HasKey(registers[..i], key)
    {
      var reg := registers[i];
      assert registers[..i + 1] == registers[..i] + [reg];
      assert Front(registers[..i + 1]) == registers[..i] && Last(registers[..i + 1]) == reg;
      forall key ensures HasKey(registers[..i + 1], key) <==> HasKey(registers[..i], key) || KeyOf(reg) == Some(key) {
        HasKeySnoc(registers[..i], reg, key);
      }
      if reg.Obj? {
        var ip := StringAt(reg.fields, IP_ADDRESS);
        if ip.Some? {
          var terminal := StringAt(reg.fields, "terminal_number");
          if terminal.Some? {
            var key := ip.value + ":" + terminal.value;
            if key !in seen {
              seen := seen + {key};
              result := result + [reg];
            }
          }
        }
      }
    }
    assert registers[..|registers|] == registers;
  }

  // ----- from payload to vendor configuration -----

  /** The vendor configuration a bridge payload stands for; none when no usable
      register is left. */
  function Generated(bridgeConfig: Event): Option<VendorConfig> {
    if VENDOR_NAME in bridgeConfig && bridgeConfig[VENDOR_NAME].Arr? &&
       Deduplicated(bridgeConfig[VENDOR_NAME].items) != []
    then Some(VendorConfig(VENDOR_NAME, DEFAULT_PORT, Deduplicated(bridgeConfig[VENDOR_NAME].items)))
    else None
  }

  // ----- from vendor configuration to registers -----

  /** Struct fields are matched without regard to case; two letters outside ASCII
      count as the s and the k they look like. */
  function Folded(c: char): char {
    if 'A' <= c <= 'Z' then c + 32 as char
    else if c == '\U{017F}' then 's'
    else if c == '\U{212A}' then 'k'
    else c
  }

  predicate FoldsTo(key: string, name: string) {
    |key| == |name| && forall i :: 0 <= i < |key| ==> Folded(key[i]) == name[i]
  }

  function Spellings(fields: Event, name: string): set<string> {
    set k | k in fields && FoldsTo(k, name)
  }

  /** Every spelling of a text field holds a text or null; else the whole document
      fails. */
  predicate TextOk(fields: Event, name: string) {
    forall k :: k in Spellings(fields, name) ==> fields[k].Str? || fields[k].Null?
  }

  /** Keys arrive sorted, null changes nothing: the last spelling with a text wins. */
  function TextValue(fields: Event, name: string): string {
    var texts := set k | k in Spellings(fields, name) && fields[k].Str?;
    if texts == {} then "" else fields[Max(texts)].s
  }

  function TextField(fields: Event, name: string): Option<string> {
    if TextOk(fields, name) then Some(TextValue(fields, name)) else None
  }

  function ParseRegister(reg: Json): Option<RegisterConfig> {
    if reg.Null? then Some(RegisterConfig("", "", ""))
    else if !reg.Obj? then None
    else
      var store, terminal, ip := TextField(reg.fields, "store_number"), TextField(reg.fields, "terminal_number"),
                                 TextField(reg.fields, IP_ADDRESS);
      if store.Some? && terminal.Some? && ip.Some?
      then Some(RegisterConfig(store.value, terminal.value, ip.value)) else None
  }

  function ParseRegisters(registers: seq<Json>): Option<seq<RegisterConfig>> {
    if registers == [] then Some([]) else
      var before, last := ParseRegisters(Front(registers)), ParseRegister(Last(registers));
      if before.Some? && last.Some? then Some(before.value + [last.value]) else None
  }

  /** The IPs a configuration asks to be routed, as the vendor reads them. */
  function Ips(config: VendorConfig): set<string> {
    set r | r in config.registers && Identity(r).Some? :: TextValue(r.fields, IP_ADDRESS)
  }

  function IpsOf(registers: seq<RegisterConfig>): seq<string> {
    seq(|registers|, i requires 0 <= i < |registers| => registers[i].ipAddress)
  }

  /** Every entry names IP and terminal: what deduplication guarantees. */
  ghost predicate Clean(config: VendorConfig) {
    forall r :: r in config.registers ==> Identity(r).Some?
  }

  lemma GeneratedClean(bridgeConfig: Event)
    ensures Generated(bridgeConfig).Some? ==> Clean(Generated(bridgeConfig).value)
  {
    if Generated(bridgeConfig).Some? {
      DeduplicatedKeys(bridgeConfig[VENDOR_NAME].items);
    }
  }

  lemma {:induction false} ParsedIps(registers: seq<Json>)
    requires forall r :: r in registers ==> Identity(r).Some?
    requires ParseRegisters(registers).Some?
    ensures |ParseRegisters(registers).value| == |registers|
    ensures forall i :: 0 <= i < |registers| ==>
              registers[i].Obj? &&
              ParseRegisters(registers).value[i].ipAddress == TextValue(registers[i].fields, IP_ADDRESS)
  {
    hide TextOk, TextValue;
    if registers == [] {
    } else {
      assert forall r :: r in Front(registers) ==> r in registers;
      ParsedIps(Front(registers));
      assert Last(registers) in registers;
    }
  }

  /** A clean configuration that parses is routed by exactly its IPs. */
  lemma ParsedConfigIps(config: VendorConfig)
    requires Clean(config) && ParseRegisters(config.registers).Some?
    ensures forall ip :: ip in IpsOf(ParseRegisters(config.registers).value) <==> ip in Ips(config)
  {
    ParsedIps(config.registers);
    var registers, parsed := config.registers, ParseRegisters(config.registers).value;
    hide StringAt, TextValue;
    forall ip | ip in Ips(config) ensures ip in IpsOf(parsed) {
      var r :| r in registers && Identity(r).Some? && TextValue(r.fields, IP_ADDRESS) == ip;
      var i :| 0 <= i < |registers| && registers[i] == r;
      assert IpsOf(parsed)[i] == ip;
    }
    forall ip | ip in IpsOf(parsed) ensures ip in Ips(config) {
      var i :| 0 <= i < |parsed| && IpsOf(parsed)[i] == ip;
      assert registers[i] in registers;
    }
  }

  /** An entry can be read: null, or an object whose three fields are texts or null
      in every spelling. */
  predicate Readable(reg: Json) {
    reg.Null? ||
    (reg.Obj? && TextOk(reg.fields, "store_number") && TextOk(reg.fields, "terminal_number") &&
     TextOk(reg.fields, IP_ADDRESS))
  }

  /** A configuration parses if and only if every entry can be read. */
  lemma {:induction false} ParsesIffReadable(registers: seq<Json>)
    ensures ParseRegisters(registers).Some? <==> forall r :: r in registers ==> Readable(r)
  {
    hide TextOk, TextValue;
    if registers == [] {
    } else {
      assert Last(registers) in registers;
      assert forall r :: r in Front(registers) ==> r in registers;
      ParsesIffReadable(Front(registers));
      assert registers == Front(registers) + [Last(registers)];
    }
  }

  /** A spelling with capitals sorts before the field's name. */
  lemma {:induction false} CapitalsFirst(key: string, name: string)
    requires FoldsTo(key, name) && forall i :: 0 <= i < |key| ==> key[i] < '\U{0080}'
    ensures AtMost(key, name)
  {
    if key != "" && key[0] == name[0] {
      CapitalsFirst(key[1..], name[1..]);
      assert key == [key[0]] + key[1..] && name == [name[0]] + name[1..];
    }
  }

  /** No spelling of the field's name sorts after the name itself. */
  predicate NoLaterSpelling(keys: set<string>) {
    forall k :: k in keys && FoldsTo(k, IP_ADDRESS) ==> AtMost(k, IP_ADDRESS)
  }

  lemma NameFolds()
    ensures FoldsTo(IP_ADDRESS, IP_ADDRESS)
  {
    assert forall i :: 0 <= i < |IP_ADDRESS| ==> Folded(IP_ADDRESS[i]) == IP_ADDRESS[i];
  }

  lemma WrittenIpWins(fields: Event)
    requires IP_ADDRESS in fields && fields[IP_ADDRESS].Str? && NoLaterSpelling(fields.Keys)
    ensures TextValue(fields, IP_ADDRESS) == fields[IP_ADDRESS].s
  {
    NameFolds();
    hide Less, FoldsTo;
    var texts := set k | k in Spellings(fields, IP_ADDRESS) && fields[k].Str?;
    assert IP_ADDRESS in texts;
    AtMostAntisymmetric();
  }

  /** Two values that tell the spellings apart. */
  function Marked(keys: set<string>, key: string): Event {
    map k | k in keys :: Str(if k == key then "b" else "a")
  }

  lemma LaterSpellingWins(keys: set<string>, key: string)
    requires IP_ADDRESS in keys && key in keys && FoldsTo(key, IP_ADDRESS) && !AtMost(key, IP_ADDRESS)
    ensures exists f: Event :: f.Keys == keys && f[IP_ADDRESS].Str? && TextValue(f, IP_ADDRESS) != f[IP_ADDRESS].s
  {
    NameFolds();
    hide FoldsTo, Less;
    var spellings := Spellings(Marked(keys, key), IP_ADDRESS);
    assert key in spellings;
    var last := Max(spellings);
    assert AtMost(key, last);
    assert last != IP_ADDRESS;
    var f := Marked(keys, last);
    assert spellings == set k | k in Spellings(f, IP_ADDRESS) && f[k].Str?;
    assert TextValue(f, IP_ADDRESS) == "b" && f[IP_ADDRESS] == Str("a");
    assert f.Keys == keys;
  }

  /** The vendor reads the IP under which an entry was kept, whatever the values,
      if and only if no spelling of the field's name sorts after it. */
  lemma IpAsWritten(keys: set<string>)
    requires IP_ADDRESS in keys
    ensures (forall f: Event :: f.Keys == keys && f[IP_ADDRESS].Str? ==>
               TextValue(f, IP_ADDRESS) == f[IP_ADDRESS].s) <==> NoLaterSpelling(keys)
  {
    hide TextValue, FoldsTo, AtMost;
    if NoLaterSpelling(keys) {
      forall f: Event | f.Keys == keys && f[IP_ADDRESS].Str? ensures TextValue(f, IP_ADDRESS) == f[IP_ADDRESS].s {
        WrittenIpWins(f);
      }
    } else {
      var key :| key in keys && FoldsTo(key, IP_ADDRESS) && !AtMost(key, IP_ADDRESS);
      LaterSpellingWins(keys, key);
    }
  }

  /** So it is when all keys are ASCII. */
  lemma AsciiIpAsWritten(reg: Json)
    requires Identity(reg).Some?
    requires forall k, i :: k in reg.fields && 0 <= i < |k| ==> k[i] < '\U{0080}'
    ensures TextValue(reg.fields, IP_ADDRESS) == Identity(reg).value.0
  {
    hide Less, FoldsTo;
    forall k | k in reg.fields && FoldsTo(k, IP_ADDRESS) ensures AtMost(k, IP_ADDRESS) {
      CapitalsFirst(k, IP_ADDRESS);
    }
    WrittenIpWins(reg.fields);
  }

  const LONG_S_ADDRESS := "ip_addre\U{017F}s"

  function LongSRegister(): Json {
    Obj(map[IP_ADDRESS := Str("a"), "terminal_number" := Str("1"), LONG_S_ADDRESS := Str("b")])
  }

  lemma LongSFolds()
    ensures FoldsTo(LONG_S_ADDRESS, IP_ADDRESS) && !FoldsTo("terminal_number", IP_ADDRESS)
    ensures Less(IP_ADDRESS, LONG_S_ADDRESS) && IP_ADDRESS != LONG_S_ADDRESS
  {
    assert forall i :: 0 <= i < |LONG_S_ADDRESS| ==> Folded(LONG_S_ADDRESS[i]) == IP_ADDRESS[i];
    LessAfterPrefix("ip_addre", "ss", "\U{017F}s");
    assert "ip_addre" + "ss" == IP_ADDRESS && "ip_addre" + "\U{017F}s" == LONG_S_ADDRESS;
  }

  /** A key with a long s imitates the field's name: kept under one IP, routed
      under another. */
  lemma LongSMisleads()
    ensures Identity(LongSRegister()) == Some(("a", "1")) && Readable(LongSRegister())
    ensures TextValue(LongSRegister().fields, IP_ADDRESS) == "b"
  {
    NameFolds();
    LongSFolds();
    LessTotal(IP_ADDRESS, LONG_S_ADDRESS);
    hide FoldsTo, Less;
    var fields := LongSRegister().fields;
    var texts := set k | k in Spellings(fields, IP_ADDRESS) && fields[k].Str?;
    assert texts == {IP_ADDRESS, LONG_S_ADDRESS};
    assert AtMost(IP_ADDRESS, Max(texts)) && AtMost(LONG_S_ADDRESS, Max(texts));
  }
}
