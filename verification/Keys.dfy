/** The text keys of the store: their format, and what order, a prefix and a split
    recover from them. */
module Keys {
  import opened Routing
  import opened TextOrder

  // ----- prefixes -----

  predicate HasPrefix(s: string, prefix: string) {
    |s| >= |prefix| && s[..|prefix|] == prefix
  }

  /** Keys with a prefix are contiguous and start at it, so a scan that seeks to
      the prefix and stops at the first other key sees all of them. */
  lemma {:induction false} PrefixInterval(prefix: string, k: string)
    ensures HasPrefix(k, prefix) ==> AtMost(prefix, k)
    ensures forall j :: AtMost(prefix, k) && AtMost(k, j) && HasPrefix(j, prefix) ==> HasPrefix(k, prefix)
  {
    forall j | AtMost(prefix, k) && AtMost(k, j) && HasPrefix(j, prefix) ensures HasPrefix(k, prefix) {
      PrefixBetween(prefix, k, j);
    }
    if HasPrefix(k, prefix) && k != prefix {
      PrefixFirst(prefix, k);
    }
  }

  lemma {:induction false} PrefixFirst(prefix: string, k: string)
    requires HasPrefix(k, prefix) && k != prefix
    ensures Less(prefix, k)
  {
    assert k == prefix + k[|prefix|..] && prefix == prefix + "";
    LessAfterPrefix(prefix, "", k[|prefix|..]);
  }

  lemma {:induction false} PrefixBetween(prefix: string, k: string, j: string)
    requires AtMost(prefix, k) && AtMost(k, j) && HasPrefix(j, prefix)
    ensures HasPrefix(k, prefix)
  {
    if prefix != "" && k != prefix && k != j {
      assert j[0] == prefix[0] && j[1..][..|prefix| - 1] == prefix[1..];
      assert k[0] == prefix[0];
      PrefixBetween(prefix[1..], k[1..], j[1..]);
      assert k == [k[0]] + k[1..] && prefix == [prefix[0]] + prefix[1..];
    }
  }

  // ----- decimal numbers -----

  function Digit(d: nat): char
    requires d < 10
  {
    '0' + d as char
  }

  function Digits(n: nat): (s: string)
    ensures s != "" && forall c :: c in s ==> '0' <= c <= '9'
  {
    if n < 10 then [Digit(n)] else Digits(n / 10) + [Digit(n % 10)]
  }

  function Decimal(n: int): string {
    if n < 0 then "-" + Digits(-n) else Digits(n)
  }

  /** The number a text of digits stands for. */
  function Number(s: string): int {
    if s == "" then 0 else 10 * Number(s[..|s| - 1]) + (s[|s| - 1] as int - '0' as int)
  }

  lemma {:induction false} DigitsRead(n: nat)
    ensures Number(Digits(n)) == n
  {
    if n >= 10 {
      DigitsRead(n / 10);
      assert Digits(n)[..|Digits(n)| - 1] == Digits(n / 10);
    } else {
      assert Digits(n)[..0] == "";
    }
  }

  function Power10(w: nat): nat {
    if w == 0 then 1 else 10 * Power10(w - 1)
  }

  lemma {:induction false} DigitsWidth(n: nat, w: nat)
    requires w >= 1
    ensures |Digits(n)| <= w <==> n < Power10(w)
  {
    if n >= 10 && w > 1 {
      DigitsWidth(n / 10, w - 1);
    } else if n < 10 {
      PowerPositive(w - 1);
    }
  }

  lemma {:induction false} PowerPositive(w: nat)
    ensures Power10(w) >= 1
  {
    if w > 0 {
      PowerPositive(w - 1);
    }
  }

  /** Nanoseconds since 1970 have 19 digits from September 2001 on, past the end of
      the 64-bit range. */
  lemma NineteenDigits(n: nat)
    ensures |Digits(n)| == 19 <==> 1_000_000_000_000_000_000 <= n < 10_000_000_000_000_000_000
  {
    DigitsWidth(n, 19);
    DigitsWidth(n, 18);
    assert Power10(9) == 1_000_000_000;
    assert Power10(18) == 1_000_000_000_000_000_000;
  }

  lemma {:induction false} DigitsOrder(t: nat, u: nat)
    requires t < u && |Digits(t)| == |Digits(u)|
    ensures Less(Digits(t), Digits(u))
  {
    if u < 10 {
    } else {
      var a, b := Digits(t / 10), Digits(u / 10);
      if t / 10 < u / 10 {
        DigitsOrder(t / 10, u / 10);
        LessTotal(a, b);
        LessByEqualLengths(a, b, [Digit(t % 10)], [Digit(u % 10)]);
      } else {
        LessAfterPrefix(a, [Digit(t % 10)], [Digit(u % 10)]);
      }
    }
  }

  lemma DigitsWidthGrows(t: nat, u: nat)
    requires t <= u
    ensures |Digits(t)| <= |Digits(u)|
  {
    DigitsWidth(u, |Digits(u)|);
    DigitsWidth(t, |Digits(u)|);
  }

  // ----- the key format -----

  const PENDING := "pending_"

  function CameraPrefix(camera: string): string {
    PENDING + camera + "_"
  }

  function PendingKey(esn: string, createdAt: int, id: string): string {
    PENDING + esn + "_" + Decimal(createdAt) + "_" + id
  }

  lemma KeyFromPrefix(esn: string, createdAt: int, id: string)
    ensures PendingKey(esn, createdAt, id) == CameraPrefix(esn) + (Decimal(createdAt) + ("_" + id))
    ensures HasPrefix(PendingKey(esn, createdAt, id), CameraPrefix(esn))
    ensures HasPrefix(PendingKey(esn, createdAt, id), PENDING)
  {
    assert PendingKey(esn, createdAt, id) == CameraPrefix(esn) + (Decimal(createdAt) + ("_" + id));
    assert CameraPrefix(esn) == PENDING + (esn + "_");
  }

  /** The numbers have equally many digits, or the shorter one is already smaller
      digit by digit. */
  predicate DigitsKept(t: nat, u: nat) {
    |Digits(t)| == |Digits(u)| ||
    (|Digits(t)| < |Digits(u)| && Less(Digits(t), Digits(u)[..|Digits(t)|]))
  }

  /** When an earlier time `t` also sorts before a later time `u`. Times before
      1970 carry a minus sign, after which larger magnitudes are earlier. */
  predicate OrderKept(t: int, u: int) {
    if t >= 0 && u >= 0 then DigitsKept(t, u)
    else if u >= 0 then true
    else t < 0 && !DigitsKept(-u, -t)
  }

  lemma FieldOrder(t: nat, i: string, u: nat, j: string)
    requires t < u
    ensures Less(Digits(t) + ("_" + i), Digits(u) + ("_" + j)) <==> DigitsKept(t, u)
  {
    hide Less, Digits;
    DigitsWidthGrows(t, u);
    var a, b := Digits(t), Digits(u);
    if |a| == |b| {
      DigitsOrder(t, u);
      LessTotal(a, b);
      LessByEqualLengths(a, b, "_" + i, "_" + j);
    } else {
      ShorterFieldOrder(a, i, b, j);
    }
  }

  lemma NegativeFieldOrder(t: nat, i: string, u: nat, j: string)
    requires u < t
    ensures Less(Digits(t) + ("_" + i), Digits(u) + ("_" + j)) <==> !DigitsKept(u, t)
  {
    FieldOrder(u, j, t, i);
    hide Less, Digits, DigitsKept;
    LessTotal(Digits(t) + ("_" + i), Digits(u) + ("_" + j));
    if Digits(t) + ("_" + i) == Digits(u) + ("_" + j) {
      DigitsPlain(t);
      DigitsPlain(u);
      HeadsAgree(Digits(t), i, Digits(u), j);
      DigitsInjective(t, u);
    }
  }

  lemma DecimalOrder(t: int, i: string, u: int, j: string)
    requires t < u
    ensures Less(Decimal(t) + ("_" + i), Decimal(u) + ("_" + j)) <==> OrderKept(t, u)
  {
    if t >= 0 {
      FieldOrder(t, i, u, j);
      hide Less, Digits, DigitsKept;
    } else {
      hide Less, Digits, DigitsKept;
      var p, y := Digits(-t) + ("_" + i), "_" + j;
      assert Decimal(t) + ("_" + i) == "-" + p;
      if u >= 0 {
        MinusFirst(p, Digits(u), y);
      } else {
        assert Decimal(u) + y == "-" + (Digits(-u) + y);
        LessAfterPrefix("-", p, Digits(-u) + y);
        NegativeFieldOrder(-t, i, -u, j);
      }
    }
  }

  lemma MinusFirst(x: string, y: string, z: string)
    requires y != "" && forall c :: c in y ==> '0' <= c
    ensures Less("-" + x, y + z)
  {
    assert y[0] in y && ("-" + x)[0] == '-' && (y + z)[0] == y[0];
    FirstDecides("-" + x, y + z);
  }

  /** Among one camera's keys, time order is key order exactly when kept. */
  lemma KeyOrder(esn: string, t: int, i: string, u: int, j: string)
    requires t < u
    ensures Less(PendingKey(esn, t, i), PendingKey(esn, u, j)) <==> OrderKept(t, u)
  {
    KeyFromPrefix(esn, t, i);
    KeyFromPrefix(esn, u, j);
    hide Less, PendingKey, CameraPrefix, OrderKept, Decimal;
    LessAfterPrefix(CameraPrefix(esn), Decimal(t) + ("_" + i), Decimal(u) + ("_" + j));
    DecimalOrder(t, i, u, j);
  }

  lemma ShorterFieldOrder(a: string, i: string, b: string, j: string)
    requires |a| < |b| && forall c :: c in b ==> c < '_'
    ensures Less(a + ("_" + i), b + ("_" + j)) <==> Less(a, b[..|a|])
  {
    hide Less;
    var head, y := b[..|a|], b[|a|..] + ("_" + j);
    assert b + ("_" + j) == head + y;
    assert y[0] == b[|a|] && b[|a|] in b;
    LessTotal(a, head);
    if a == head {
      FirstDecides("_" + i, y);
      LessAfterPrefix(a, "_" + i, y);
    } else {
      LessByEqualLengths(a, head, "_" + i, y);
    }
  }

  lemma FirstDecides(x: string, y: string)
    requires x != "" && y != "" && x[0] != y[0]
    ensures Less(x, y) <==> x[0] < y[0]
  {
  }

  /** With equally many digits keys order by time, then by id. */
  lemma KeyOrderSameWidth(esn: string, t: nat, i: string, u: nat, j: string)
    requires |Digits(t)| == |Digits(u)|
    ensures Less(PendingKey(esn, t, i), PendingKey(esn, u, j)) <==> t < u || (t == u && Less(i, j))
  {
    hide Digits, Less;
    if t < u {
      KeyOrder(esn, t, i, u, j);
    } else if u < t {
      KeyOrder(esn, u, j, t, i);
      LessTotal(PendingKey(esn, t, i), PendingKey(esn, u, j));
    } else {
      KeyFromPrefix(esn, t, i);
      KeyFromPrefix(esn, u, j);
      LessAfterPrefix(CameraPrefix(esn), Digits(t) + ("_" + i), Digits(t) + ("_" + j));
      LessAfterPrefix(Digits(t), "_" + i, "_" + j);
      LessAfterPrefix("_", i, j);
    }
  }

  /** Ten nanoseconds sort before nine. */
  lemma WidthMatters()
    ensures Less(PendingKey("e", 10, "x"), PendingKey("e", 9, "x"))
  {
    KeyOrder("e", 9, "x", 10, "x");
    LessTotal(PendingKey("e", 10, "x"), PendingKey("e", 9, "x"));
    assert Digits(10) == Digits(1) + [Digit(0)];
    assert Digits(10)[..1] == "1" && Digits(9) == "9";
    assert Digit(9) == '9' && Digit(1) == '1';
    assert PendingKey("e", 10, "x") != PendingKey("e", 9, "x") by {
      KeyFromPrefix("e", 10, "x");
      KeyFromPrefix("e", 9, "x");
      assert |PendingKey("e", 10, "x")| != |PendingKey("e", 9, "x")|;
    }
  }

  // ----- what a prefix and a split recover -----

  predicate Plain(esn: string) {
    '_' !in esn
  }

  /** Text before the first underscore, and after it. */
  lemma {:induction false} FirstUnderscore(s: string) returns (head: string, tail: string)
    requires !Plain(s)
    ensures Plain(head) && s == head + ("_" + tail)
  {
    if s[0] == '_' {
      head, tail := "", s[1..];
    } else {
      assert !Plain(s[1..]) by {
        assert s == [s[0]] + s[1..];
      }
      head, tail := FirstUnderscore(s[1..]);
      head := [s[0]] + head;
    }
  }

  /** What a requested name with a final underscore can be a prefix of. */
  lemma PrefixOfFields(head: string, rest: string, name: string)
    requires Plain(head)
    ensures HasPrefix(head + ("_" + rest), name + "_") <==>
            name == head ||
            (HasPrefix(name, head + "_") && HasPrefix(rest, name[|head| + 1..] + "_"))
  {
    hide Plain;
    if HasPrefix(head + ("_" + rest), name + "_") {
      PrefixSplits(head, rest, name);
    }
    if HasPrefix(name, head + "_") && HasPrefix(rest, name[|head| + 1..] + "_") {
      PrefixJoins(head, rest, name);
    }
    if name == head {
      WholeHead(head, rest);
    }
  }

  lemma PrefixSplits(head: string, rest: string, name: string)
    requires Plain(head) && HasPrefix(head + ("_" + rest), name + "_")
    ensures name == head || (HasPrefix(name, head + "_") && HasPrefix(rest, name[|head| + 1..] + "_"))
  {
    var p := name + "_";
    var tail := (head + ("_" + rest))[|p|..];
    assert head + ("_" + rest) == name + ("_" + tail);
    hide Plain;
    if Plain(name) {
      HeadsAgree(head, rest, name, tail);
    } else {
      var h, n := FirstUnderscore(name);
      assert head + ("_" + rest) == h + ("_" + (n + ("_" + tail)));
      HeadsAgree(head, rest, h, n + ("_" + tail));
      assert n == name[|head| + 1..] && rest == (n + "_") + tail;
    }
  }

  lemma PrefixJoins(head: string, rest: string, name: string)
    requires HasPrefix(name, head + "_") && HasPrefix(rest, name[|head| + 1..] + "_")
    ensures HasPrefix(head + ("_" + rest), name + "_")
  {
    var n := name[|head| + 1..];
    var tail := rest[|n| + 1..];
    assert name == head + "_" + n && rest == (n + "_") + tail;
    assert head + ("_" + rest) == (name + "_") + tail;
  }

  lemma WholeHead(head: string, rest: string)
    ensures HasPrefix(head + ("_" + rest), head + "_")
  {
    assert head + ("_" + rest) == (head + "_") + rest;
  }

  /** The requested name is the camera's ESN followed by a time, and perhaps more. */
  predicate CrossesAt(name: string, esn: string, createdAt: int) {
    var head := esn + ("_" + Decimal(createdAt));
    name == head || HasPrefix(name, head + "_")
  }

  /** The items a request for `name` is served from. */
  predicate Serves(name: string, esn: string, createdAt: int, id: string) {
    name == esn ||
    (CrossesAt(name, esn, createdAt) &&
     var head := esn + ("_" + Decimal(createdAt));
     name != head ==> HasPrefix(id, name[|head| + 1..] + "_"))
  }

  /** Exactly which keys the prefix of a request selects, whatever the request. */
  lemma PrefixSelects(name: string, esn: string, createdAt: int, id: string)
    requires Plain(esn)
    ensures HasPrefix(PendingKey(esn, createdAt, id), CameraPrefix(name)) <==> Serves(name, esn, createdAt, id)
  {
    hide Decimal, PendingKey, CameraPrefix, Serves, Plain, HasPrefix;
    KeyFields(name, esn, createdAt, id);
    FieldsServe(name, esn, createdAt, id);
  }

  /** The fields of a key, after the part all keys share. */
  function Fields(esn: string, createdAt: int, id: string): string {
    esn + ("_" + (Decimal(createdAt) + ("_" + id)))
  }

  lemma KeyFields(name: string, esn: string, createdAt: int, id: string)
    ensures HasPrefix(PendingKey(esn, createdAt, id), CameraPrefix(name)) <==>
            HasPrefix(Fields(esn, createdAt, id), name + "_")
  {
    hide Decimal, HasPrefix;
    var fields := Fields(esn, createdAt, id);
    assert PendingKey(esn, createdAt, id) == PENDING + fields && CameraPrefix(name) == PENDING + (name + "_");
    PrefixAfter(PENDING, fields, name + "_");
  }

  lemma FieldsServe(name: string, esn: string, createdAt: int, id: string)
    requires Plain(esn)
    ensures HasPrefix(Fields(esn, createdAt, id), name + "_") <==> Serves(name, esn, createdAt, id)
  {
    hide Decimal, Plain, HasPrefix;
    PrefixOfFields(esn, Decimal(createdAt) + ("_" + id), name);
    if HasPrefix(name, esn + "_") {
      TailServes(name, esn, createdAt, id);
      hide Serves;
    } else {
      PrefixShorter(name, esn + "_", Decimal(createdAt));
      assert esn + ("_" + Decimal(createdAt)) == esn + "_" + Decimal(createdAt);
    }
  }

  lemma TailServes(name: string, esn: string, createdAt: int, id: string)
    requires HasPrefix(name, esn + "_")
    ensures name != esn
    ensures HasPrefix(Decimal(createdAt) + ("_" + id), name[|esn| + 1..] + "_") <==> Serves(name, esn, createdAt, id)
  {
    var d, n := Decimal(createdAt), name[|esn| + 1..];
    assert name == esn + ("_" + n);
    DecimalPlain(createdAt);
    hide Decimal, Plain;
    PrefixOfFields(d, id, n);
    ServesFields(name, esn, d, n);
    hide HasPrefix;
  }

  lemma PrefixAfter(p: string, s: string, q: string)
    ensures HasPrefix(p + s, p + q) <==> HasPrefix(s, q)
  {
    if HasPrefix(p + s, p + q) {
      assert (p + s)[..|p + q|] == p + s[..|q|];
      TailsAgree(p, s[..|q|], q);
    }
    if HasPrefix(s, q) {
      assert (p + s)[..|p + q|] == p + s[..|q|];
    }
  }

  lemma PrefixShorter(s: string, a: string, b: string)
    ensures HasPrefix(s, a + b) ==> HasPrefix(s, a)
    ensures HasPrefix(s, a + b + "_") ==> HasPrefix(s, a)
    ensures s == a + b ==> HasPrefix(s, a)
  {
    if HasPrefix(s, a + b) {
      assert s[..|a|] == s[..|a + b|][..|a|];
    }
    if HasPrefix(s, a + b + "_") {
      assert s[..|a|] == s[..|a + b + "_"|][..|a|];
    }
  }

  lemma ServesFields(name: string, esn: string, d: string, n: string)
    requires name == esn + ("_" + n)
    ensures var head := esn + ("_" + d);
            (name == head <==> n == d) && (HasPrefix(name, head + "_") <==> HasPrefix(n, d + "_")) &&
            (HasPrefix(name, head + "_") ==> name[|head| + 1..] == n[|d| + 1..])
  {
    var head, p := esn + ("_" + d), esn + "_";
    assert name == p + n && head == p + d && head + "_" == p + (d + "_");
    PrefixAfter(p, n, d + "_");
    if name == head {
      TailsAgree(p, n, d);
    }
  }

  /** The requested name could be served from another camera's items. */
  ghost predicate Crosses(name: string, esn: string) {
    exists t: int :: CrossesAt(name, esn, t)
  }

  /** A request selects exactly the keys of the camera it names, for all items of
      a camera, if and only if it is not that camera's ESN followed by a time. */
  lemma PrefixIsolates(name: string, esn: string)
    requires Plain(esn)
    ensures (forall t: int, id: string ::
               HasPrefix(PendingKey(esn, t, id), CameraPrefix(name)) <==> esn == name) <==> !Crosses(name, esn)
  {
    hide PendingKey, CameraPrefix, Decimal;
    forall t: int, id: string
      ensures HasPrefix(PendingKey(esn, t, id), CameraPrefix(name)) <==> Serves(name, esn, t, id)
    {
      PrefixSelects(name, esn, t, id);
    }
    if t: int :| CrossesAt(name, esn, t) {
      var id := CrossedId(name, esn, t);
      assert HasPrefix(PendingKey(esn, t, id), CameraPrefix(name));
    }
  }

  /** An id under which the crossing request is served. */
  lemma CrossedId(name: string, esn: string, createdAt: int) returns (id: string)
    requires CrossesAt(name, esn, createdAt)
    ensures Serves(name, esn, createdAt, id) && name != esn
  {
    hide Decimal;
    var head := esn + ("_" + Decimal(createdAt));
    id := if name == head then "" else name[|head| + 1..] + "_";
    assert |name| > |esn|;
  }

  lemma CrossingHasUnderscore(name: string, esn: string)
    requires Crosses(name, esn)
    ensures !Plain(name)
  {
    hide Decimal;
    var t: int :| CrossesAt(name, esn, t);
    assert name[|esn|] in name;
  }

  /** A request with underscores is served from one camera's items of one time. */
  lemma ServedSameTime(name: string, e: string, t: int, i: string, f: string, u: int, j: string)
    requires Plain(e) && Plain(f) && !Plain(name) && Serves(name, e, t, i) && Serves(name, f, u, j)
    ensures e == f && t == u
  {
    var x := CrossingTail(name, e, t);
    var y := CrossingTail(name, f, u);
    DecimalPlain(t);
    DecimalPlain(u);
    hide Decimal;
    HeadsAgree(e, Decimal(t) + x, f, Decimal(u) + y);
    UnderscoreTails(Decimal(t), x, Decimal(u), y);
    DecimalInjective(t, u);
  }

  lemma CrossingTail(name: string, esn: string, createdAt: int) returns (tail: string)
    requires CrossesAt(name, esn, createdAt)
    ensures name == esn + ("_" + (Decimal(createdAt) + tail)) && (tail == "" || tail[0] == '_')
  {
    hide Decimal;
    var head := esn + ("_" + Decimal(createdAt));
    tail := name[|head|..];
    assert name[..|head|] == head by {
      assert name != head ==> name[..|head|] == name[..|head| + 1][..|head|];
    }
    assert name == head + tail;
    if name != head {
      assert name[..|head| + 1][|head|] == '_';
    }
  }

  lemma UnderscoreTails(a: string, x: string, b: string, y: string)
    requires Plain(a) && Plain(b) && a + x == b + y
    requires (x == "" || x[0] == '_') && (y == "" || y[0] == '_')
    ensures a == b
  {
    assert (a + x) + "_" == (b + y) + "_";
    var p, q := x + "_", y + "_";
    assert p[0] == '_' && q[0] == '_';
    assert p == "_" + p[1..] && q == "_" + q[1..];
    assert a + p == (a + x) + "_" && b + q == (b + y) + "_";
    HeadsAgree(a, p[1..], b, q[1..]);
  }

  /** With an underscore in an ESN, another camera's prefix selects its keys. */
  lemma UnderscoreLeaks(camera: string, rest: string, createdAt: int, id: string)
    ensures HasPrefix(PendingKey(camera + "_" + rest, createdAt, id), CameraPrefix(camera))
  {
    KeyFromPrefix(camera + "_" + rest, createdAt, id);
    assert CameraPrefix(camera + "_" + rest) == CameraPrefix(camera) + (rest + "_");
  }

  /** The parts of a text between underscores. */
  function Split(s: string): (parts: seq<string>)
    ensures parts != []
  {
    if s == "" then [""]
    else
      var parts := Split(s[1..]);
      if s[0] == '_' then [""] + parts else [[s[0]] + parts[0]] + parts[1..]
  }

  lemma {:induction false} SplitAtUnderscore(head: string, tail: string)
    requires Plain(head)
    ensures Split(head + "_" + tail) == [head] + Split(tail)
  {
    if head == "" {
      assert (head + "_" + tail)[1..] == tail;
    } else {
      assert (head + "_" + tail)[1..] == head[1..] + "_" + tail;
      SplitAtUnderscore(head[1..], tail);
      assert [head[0]] + head[1..] == head;
    }
  }

  /** Splitting a key recovers the camera. */
  lemma SplitRecoversCamera(esn: string, createdAt: int, id: string)
    requires Plain(esn)
    ensures |Split(PendingKey(esn, createdAt, id))| >= 2 && Split(PendingKey(esn, createdAt, id))[1] == esn
  {
    var rest := Decimal(createdAt) + "_" + id;
    assert PendingKey(esn, createdAt, id) == "pending" + "_" + (esn + "_" + rest);
    SplitAtUnderscore("pending", esn + "_" + rest);
    SplitAtUnderscore(esn, rest);
  }

  /** Keys of plain ESNs are equal only for the same camera, time and id. */
  lemma KeyInjective(e: string, t: int, i: string, f: string, u: int, j: string)
    requires Plain(e) && Plain(f) && PendingKey(e, t, i) == PendingKey(f, u, j)
    ensures e == f && t == u && i == j
  {
    hide Digits, Split;
    SplitRecoversCamera(e, t, i);
    SplitRecoversCamera(f, u, j);
    KeyFromPrefix(e, t, i);
    KeyFromPrefix(f, u, j);
    TailsAgree(CameraPrefix(e), Decimal(t) + ("_" + i), Decimal(u) + ("_" + j));
    DecimalPlain(t);
    DecimalPlain(u);
    HeadsAgree(Decimal(t), i, Decimal(u), j);
    DecimalInjective(t, u);
  }

  lemma TailsAgree(p: string, a: string, b: string)
    requires p + a == p + b
    ensures a == b
  {
    assert (p + a)[|p|..] == a && (p + b)[|p|..] == b;
  }

  lemma DigitsPlain(n: nat)
    ensures Plain(Digits(n))
  {
    assert forall c :: c in Digits(n) ==> '0' <= c <= '9';
  }

  lemma DecimalPlain(n: int)
    ensures Plain(Decimal(n))
  {
    DigitsPlain(if n < 0 then -n else n);
  }

  lemma HeadsAgree(a: string, x: string, b: string, y: string)
    requires Plain(a) && Plain(b) && a + ("_" + x) == b + ("_" + y)
    ensures a == b && x == y
  {
    var s := a + ("_" + x);
    assert forall k :: 0 <= k < |a| ==> s[k] == a[k];
    assert forall k :: 0 <= k < |b| ==> s[k] == b[k];
    assert s[|a|] == '_' && s[|b|] == '_';
    assert forall k :: 0 <= k < |a| ==> a[k] in a;
    assert forall k :: 0 <= k < |b| ==> b[k] in b;
    assert |a| == |b|;
    assert a == s[..|a|] && x == s[|a| + 1..];
  }

  lemma {:induction false} DecimalInjective(t: int, u: int)
    requires Decimal(t) == Decimal(u)
    ensures t == u
  {
    assert t >= 0 ==> Digits(t)[0] in Digits(t);
    assert u >= 0 ==> Digits(u)[0] in Digits(u);
    if t < 0 && u < 0 {
      TailsAgree("-", Digits(-t), Digits(-u));
      DigitsInjective(-t, -u);
    } else if t >= 0 && u >= 0 {
      DigitsInjective(t, u);
    }
  }

  lemma DigitsInjective(t: nat, u: nat)
    requires Digits(t) == Digits(u)
    ensures t == u
  {
    LessTotal(Digits(t), Digits(u));
    if t < u {
      DigitsOrder(t, u);
    } else if u < t {
      DigitsOrder(u, t);
    }
  }

  /** Every camera an emission is fanned out to has a plain ESN. */
  lemma ResolvedEsnsPlain(table: Table, fallback: string, ip: string, esn: string)
    requires WellFormed(table) && esn in Resolve(table, fallback, ip)
    ensures Plain(esn)
  {
    ResolveIsFanOut(table, fallback, ip);
    assert IsValidEsn(esn);
  }
}
