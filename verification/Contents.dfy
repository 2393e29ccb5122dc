/** What is in the records: every transaction's fields and NS92 stream, in terms of
    the raw fields of the events routed to it. */
module Contents {
  import opened Collections
  import opened Payload
  import opened Register
  import opened Transactions
  import opened Reading

  // ----- what the fields are -----

  /** The i-th event is the last with the property among the first `n`. */
  ghost predicate IsLast(p: Event -> bool, routed: seq<Arrival>, n: nat, i: nat) {
    i < n <= |routed| && p(routed[i].event) && forall j :: i < j < n ==> !p(routed[j].event)
  }

  /** `m` is the last event with the property among the first `n`, none if there is
      none. */
  ghost predicate LastIs(p: Event -> bool, routed: seq<Arrival>, n: nat, m: Option<Event>) {
    n <= |routed| &&
    match m
    case None => forall i :: 0 <= i < n ==> !p(routed[i].event)
    case Some(e) => exists i: nat :: IsLast(p, routed, n, i) && routed[i].event == e
  }

  predicate HasMeta(e: Event) {
    "metaData" in e
  }

  ghost predicate LastMetaIs(routed: seq<Arrival>, n: nat, m: Option<Event>) {
    LastIs(HasMeta, routed, n, m)
  }

  ghost predicate LastHeaderIs(routed: seq<Arrival>, n: nat, m: Option<Event>) {
    LastIs(Heads, routed, n, m)
  }

  lemma LastSnoc(p: Event -> bool, routed: seq<Arrival>, n: nat, m: Option<Event>)
    requires n < |routed| && LastIs(p, routed, n, m)
    ensures LastIs(p, routed, n + 1, if p(routed[n].event) then Some(routed[n].event) else m)
  {
    if p(routed[n].event) {
      assert IsLast(p, routed, n + 1, n);
    } else if m.Some? {
      var i: nat :| IsLast(p, routed, n, i) && routed[i].event == m.value;
      assert IsLast(p, routed, n + 1, i);
    }
  }

  /** The events at these places. */
  function EventsAt(routed: seq<Arrival>, indices: seq<nat>): seq<Event> {
    seq(|indices|, j requires 0 <= j < |indices| =>
      if indices[j] < |routed| then routed[indices[j]].event else map[])
  }

  function ListedAt(routed: seq<Arrival>): set<nat> {
    set i | 0 <= i < |routed| && Listed(routed[i].event)
  }

  lemma {:induction false} PrefixMeans(routed: seq<Arrival>, n: nat)
    requires n <= |routed|
    ensures LastMetaIs(routed, n, LastMeta(routed[..n]))
    ensures LastHeaderIs(routed, n, LastHeader(routed[..n]))
  {
    hide Heads, HasMeta, IsHeader, IsMeta;
    if n == 0 {
    } else {
      PrefixMeans(routed, n - 1);
      var part := routed[..n];
      assert Front(part) == routed[..n - 1] && Last(part) == routed[n - 1];
      LastSnoc(HasMeta, routed, n - 1, LastMeta(Front(part)));
      LastSnoc(Heads, routed, n - 1, LastHeader(Front(part)));
      MetaReadings(routed[n - 1].event);
      hide LastIs;
    }
  }

  lemma MetaReadings(e: Event)
    ensures IsMeta(e) <==> HasMeta(e)
    ensures IsHeader(e) <==> Heads(e)
  {
  }

  lemma {:induction false} OtherEventsMeans(routed: seq<Arrival>)
    ensures OtherEvents(routed) == EventsAt(routed, Indices(|routed|, ListedAt(routed)))
  {
    if routed == [] {
    } else {
      var n, front := |routed|, Front(routed);
      OtherEventsMeans(front);
      IndicesMeaning(n - 1, ListedAt(front));
      IndicesSame(n - 1, ListedAt(front), ListedAt(routed));
      Readings(Last(routed).event);
      assert n - 1 in ListedAt(routed) <==> Listed(Last(routed).event);
      hide IsOther, Listed, ListedAt;
      EventsAtFront(routed, Indices(n - 1, ListedAt(front)));
    }
  }

  lemma EventsAtFront(routed: seq<Arrival>, indices: seq<nat>)
    requires routed != [] && forall i :: i in indices ==> i < |routed| - 1
    ensures EventsAt(routed, indices) == EventsAt(Front(routed), indices)
    ensures EventsAt(routed, indices + [|routed| - 1]) == EventsAt(Front(routed), indices) + [Last(routed).event]
  {
    assert forall j :: 0 <= j < |indices| ==> indices[j] in indices;
  }

  // ----- when the triad is there -----

  ghost predicate TriadBy(cmd: bool, routed: seq<Arrival>, n: nat) {
    n <= |routed| && cmd && (exists i :: 0 <= i < n && HasMeta(routed[i].event)) &&
    exists i :: 0 <= i < n && Heads(routed[i].event)
  }

  /** The triad is complete with the first `at` events and not before. */
  ghost predicate FirstTriad(cmd: bool, routed: seq<Arrival>, at: nat) {
    TriadBy(cmd, routed, at) && forall n: nat :: n < at ==> !TriadBy(cmd, routed, n)
  }

  lemma TriadPrefix(cmd: bool, routed: seq<Arrival>, n: nat)
    requires n <= |routed|
    ensures TriadBy(cmd, routed, n) <==> cmd && LastMeta(routed[..n]).Some? && LastHeader(routed[..n]).Some?
  {
    PrefixMeans(routed, n);
    hide LastMeta, LastHeader, Heads, HasMeta;
  }

  lemma {:induction false} TriadAtMeans(cmd: bool, routed: seq<Arrival>)
    ensures TriadAt(cmd, routed).None? <==> !TriadBy(cmd, routed, |routed|)
    ensures forall at: nat :: FirstTriad(cmd, routed, at) <==> TriadAt(cmd, routed) == Some(at)
  {
    var n := |routed|;
    TriadPrefix(cmd, routed, n);
    TriadIffComplete(cmd, routed);
    assert routed[..n] == routed;
    if routed == [] {
    } else {
      var front := Front(routed);
      TriadAtMeans(cmd, front);
      forall k: nat | k < n ensures TriadBy(cmd, routed, k) <==> TriadBy(cmd, front, k) {
        assert forall i :: 0 <= i < k ==> front[i] == routed[i];
      }
      hide LastMeta, LastHeader, Heads, HasMeta;
      forall k: nat | k <= n && TriadBy(cmd, routed, k) ensures TriadBy(cmd, routed, n) {
      }
      TriadFirsts(cmd, routed, front);
    }
  }

  lemma TriadFirsts(cmd: bool, routed: seq<Arrival>, front: seq<Arrival>)
    requires routed != [] && front == Front(routed)
    requires forall k: nat :: k < |routed| ==> (TriadBy(cmd, routed, k) <==> TriadBy(cmd, front, k))
    requires TriadAt(cmd, front).None? <==> !TriadBy(cmd, front, |front|)
    requires forall at: nat :: FirstTriad(cmd, front, at) <==> TriadAt(cmd, front) == Some(at)
    requires TriadBy(cmd, routed, |routed|) <==> cmd && LastMeta(routed).Some? && LastHeader(routed).Some?
    ensures forall at: nat :: FirstTriad(cmd, routed, at) <==> TriadAt(cmd, routed) == Some(at)
  {
    hide LastMeta, LastHeader, Heads, HasMeta;
    forall at: nat ensures FirstTriad(cmd, routed, at) <==> TriadAt(cmd, routed) == Some(at) {
      assert at < |routed| ==> (FirstTriad(cmd, routed, at) <==> FirstTriad(cmd, front, at));
      TriadMonotone(cmd, front, at);
      hide TriadBy;
    }
  }

  lemma TriadMonotone(cmd: bool, routed: seq<Arrival>, n: nat)
    ensures TriadBy(cmd, routed, n) ==> TriadBy(cmd, routed, |routed|)
  {
  }

  // ----- what the records hold -----

  /** `pos` has `key` exactly when the stored event holds a value there that is not
      null, and then that value. */
  predicate Carries(pos: Event, stored: Option<Event>, key: string) {
    (key in pos <==> stored.Some? && key in stored.value && stored.value[key] != Null) &&
    (key in pos ==> pos[key] == stored.value[key])
  }

  /** The combined start record. */
  ghost predicate StartRecord(pos: Event, ip: string, meta: Option<Event>, header: Option<Event>) {
    "domain" in pos && pos["domain"] == Str("711pos2") &&
    "register_ip" in pos && pos["register_ip"] == Str(ip) &&
    "CMD" in pos && pos["CMD"] == Str("StartTransaction") &&
    Carries(pos, meta, "metaData") && Carries(pos, header, "transactionHeader") &&
    forall k :: k in pos ==> k in {"domain", "register_ip", "CMD", "metaData", "transactionHeader"}
  }

  /** The record of one event: its own fields but metaData, the metaData known, and
      the register where the event does not say otherwise. */
  ghost predicate EventRecord(pos: Event, ip: string, meta: Option<Event>, e: Event) {
    (forall k :: k in e && k != "metaData" ==> k in pos && pos[k] == e[k]) &&
    Carries(pos, meta, "metaData") &&
    ("domain" !in e ==> "domain" in pos && pos["domain"] == Str("711pos2")) &&
    ("register_ip" !in e ==> "register_ip" in pos && pos["register_ip"] == Str(ip)) &&
    forall k :: k in pos ==> (k in e && k != "metaData") || k in {"domain", "register_ip", "metaData"}
  }

  lemma StartPosMeans(ip: string, meta: Option<Event>, header: Option<Event>)
    ensures StartRecord(StartPos(ip, meta, header), ip, meta, header)
  {
  }

  lemma EventPosMeans(ip: string, meta: Option<Event>, e: Event)
    ensures EventRecord(EventPos(ip, meta, e), ip, meta, e)
  {
  }

  /** The events that have records: before the triad those of the list without a
      CMD key, after it those sent alone. */
  function SentAt(routed: seq<Arrival>, at: nat): set<nat> {
    set i | 0 <= i < |routed| &&
      if i < at then Listed(routed[i].event) && "CMD" !in routed[i].event else SentAlone(routed[i].event)
  }

  /** How much is known when the i-th event is sent. */
  function KnownAt(at: nat, i: nat): nat {
    if i < at then at else i + 1
  }

  ghost predicate RecordAt(ip: string, routed: seq<Arrival>, at: nat, i: nat, pos: Event) {
    i < |routed| &&
    exists m :: LastMetaIs(routed, KnownAt(at, i), m) && EventRecord(pos, ip, m, routed[i].event)
  }

  ghost predicate StartAt(ip: string, routed: seq<Arrival>, at: nat, pos: Event) {
    exists m, h :: LastMetaIs(routed, at, m) && LastHeaderIs(routed, at, h) && StartRecord(pos, ip, m, h)
  }

  /** The whole stream: the combined start record and then, in arrival order, one
      record per event sent, with the metaData known at the triad or when it came. */
  ghost predicate StreamIs(ip: string, routed: seq<Arrival>, at: nat, pos: seq<Event>) {
    var sent := Indices(|routed|, SentAt(routed, at));
    |pos| == 1 + |sent| && StartAt(ip, routed, at, pos[0]) &&
    forall j :: 0 <= j < |sent| ==> RecordAt(ip, routed, at, sent[j], pos[j + 1])
  }

  // ----- the closed form says so -----

  /** The records of the first `n` events, one by one. */
  function Records(ip: string, routed: seq<Arrival>, at: nat, n: nat): seq<Event>
    requires at <= |routed| && n <= |routed|
  {
    if n == 0 then [] else
      Records(ip, routed, at, n - 1) +
      if n - 1 in SentAt(routed, at)
      then [EventPos(ip, LastMeta(routed[..if n <= at then at else n]), routed[n - 1].event)]
      else []
  }

  lemma {:induction false} RecordsMean(ip: string, routed: seq<Arrival>, at: nat, n: nat)
    requires at <= |routed| && n <= |routed|
    ensures var sent := Indices(n, SentAt(routed, at));
            var pos := Records(ip, routed, at, n);
            |pos| == |sent| && forall j :: 0 <= j < |sent| ==> RecordAt(ip, routed, at, sent[j], pos[j])
  {
    hide EventPos, EventRecord, LastMeta, LastMetaIs, SentAt;
    if n == 0 {
    } else {
      RecordsMean(ip, routed, at, n - 1);
      var known := if n <= at then at else n;
      PrefixMeans(routed, known);
      EventPosMeans(ip, LastMeta(routed[..known]), routed[n - 1].event);
      assert KnownAt(at, n - 1) == known;
      assert n - 1 in SentAt(routed, at) ==>
               RecordAt(ip, routed, at, n - 1, EventPos(ip, LastMeta(routed[..known]), routed[n - 1].event));
      hide RecordAt;
    }
  }

  lemma {:induction false} RecordsHeld(ip: string, routed: seq<Arrival>, at: nat, n: nat)
    requires n <= at <= |routed|
    ensures Records(ip, routed, at, n) == PosOf(ip, LastMeta(routed[..at]), PendingEvents(routed[..n]))
  {
    hide EventPos, LastMeta, Listed, IsOther;
    if n == 0 {
    } else {
      RecordsHeld(ip, routed, at, n - 1);
      var part := routed[..n];
      assert Front(part) == routed[..n - 1] && Last(part) == routed[n - 1];
      Readings(routed[n - 1].event);
      var before, e := PendingEvents(Front(part)), routed[n - 1].event;
      assert n - 1 in SentAt(routed, at) <==> IsOther(e) && "CMD" !in e;
      assert PendingEvents(part) == before + if IsOther(e) && "CMD" !in e then [e] else [];
      hide PendingEvents, SentAt;
      assert before + [] == before;
      assert Front(before + [e]) == before && Last(before + [e]) == e;
    }
  }

  lemma {:induction false} RecordsLater(ip: string, routed: seq<Arrival>, at: nat, n: nat)
    requires at <= n <= |routed|
    ensures Records(ip, routed, at, n) == Records(ip, routed, at, at) + LaterPos(ip, routed[..n], at)
  {
    hide EventPos, LastMeta, Skipped, SentAlone;
    if n == at {
    } else {
      RecordsLater(ip, routed, at, n - 1);
      var part := routed[..n];
      assert Front(part) == routed[..n - 1] && Last(part) == routed[n - 1];
      SkippedMeans(routed[n - 1].event);
      assert n - 1 in SentAt(routed, at) <==> SentAlone(routed[n - 1].event);
      hide SentAt;
    }
  }

  lemma SkippedMeans(e: Event)
    ensures Skipped(e) <==> !SentAlone(e)
  {
  }

  lemma StreamMeans(ip: string, cmd: bool, routed: seq<Arrival>)
    ensures TriadAt(cmd, routed).None? ==> Stream(ip, cmd, routed) == []
    ensures TriadAt(cmd, routed).Some? ==> StreamIs(ip, routed, TriadAt(cmd, routed).value, Stream(ip, cmd, routed))
  {
    if TriadAt(cmd, routed).Some? {
      TriadAtInRange(cmd, routed);
      var at := TriadAt(cmd, routed).value;
      RecordsHeld(ip, routed, at, at);
      RecordsLater(ip, routed, at, |routed|);
      StartAndRecords(ip, routed, at);
      assert routed[..|routed|] == routed;
      StreamParts(ip, cmd, routed, at);
      hide Stream, StreamIs, TriadAt, StartPos, LastMeta, LastHeader, PosOf, PendingEvents, LaterPos, Records;
      Regroup([StartPos(ip, LastMeta(routed[..at]), LastHeader(routed[..at]))],
              PosOf(ip, LastMeta(routed[..at]), PendingEvents(routed[..at])), LaterPos(ip, routed, at));
    }
  }

  lemma StreamParts(ip: string, cmd: bool, routed: seq<Arrival>, at: nat)
    requires at <= |routed| && TriadAt(cmd, routed) == Some(at)
    ensures Stream(ip, cmd, routed) ==
            [StartPos(ip, LastMeta(routed[..at]), LastHeader(routed[..at]))]
            + PosOf(ip, LastMeta(routed[..at]), PendingEvents(routed[..at])) + LaterPos(ip, routed, at)
  {
    hide TriadAt, StartPos, LastMeta, LastHeader, PosOf, PendingEvents, LaterPos;
  }

  lemma Regroup<T>(a: seq<T>, b: seq<T>, c: seq<T>)
    ensures a + b + c == a + (b + c)
  {
  }

  lemma StartAndRecords(ip: string, routed: seq<Arrival>, at: nat)
    requires at <= |routed|
    ensures var start := StartPos(ip, LastMeta(routed[..at]), LastHeader(routed[..at]));
            StreamIs(ip, routed, at, [start] + Records(ip, routed, at, |routed|))
  {
    hide StartPos, StartRecord, LastMeta, LastHeader, LastMetaIs, LastHeaderIs, Records, RecordAt, SentAt;
    RecordsMean(ip, routed, at, |routed|);
    PrefixMeans(routed, at);
    StartPosMeans(ip, LastMeta(routed[..at]), LastHeader(routed[..at]));
    var start := StartPos(ip, LastMeta(routed[..at]), LastHeader(routed[..at]));
    assert StartAt(ip, routed, at, start);
    hide StartAt;
  }

  // ----- every run -----

  /** The record holds what its events said: the last metaData and header events, the
      listed events in order, and the stream they make. */
  ghost predicate RecordIs(tx: Transaction) {
    var cmd, n := tx.cmd.Some?, |tx.routed|;
    LastMetaIs(tx.routed, n, tx.metaData) && LastHeaderIs(tx.routed, n, tx.transactionHeader) &&
    tx.otherEvents == EventsAt(tx.routed, Indices(n, ListedAt(tx.routed))) &&
    (tx.hasStartTriad <==> TriadBy(cmd, tx.routed, n)) &&
    (!tx.hasStartTriad ==> tx.offers == []) &&
    (tx.hasStartTriad ==> exists at :: FirstTriad(cmd, tx.routed, at) &&
                                       StreamIs(tx.registerIP, tx.routed, at, OfferedPos(tx)))
  }

  /** The bodies offered, in order. */
  function OfferedPos(tx: Transaction): seq<Event> {
    seq(|tx.offers|, i requires 0 <= i < |tx.offers| => tx.offers[i].pos)
  }

  lemma {:induction false} OfferPosIs(offers: seq<Offer>)
    ensures OfferPos(offers) == seq(|offers|, i requires 0 <= i < |offers| => offers[i].pos)
  {
    if offers == [] {
    } else {
      OfferPosIs(Front(offers));
    }
  }

  lemma ClosedFormIs(tx: Transaction)
    requires StreamSound(tx) && tx.metaData == LastMeta(tx.routed) && tx.transactionHeader == LastHeader(tx.routed)
    requires tx.otherEvents == OtherEvents(tx.routed)
    ensures RecordIs(tx)
  {
    hide TriadAt, LastMeta, LastHeader, OtherEvents, Stream, PendingEvents, LastMetaIs, LastHeaderIs, ListedAt,
         StreamIs, TriadBy, OfferPos;
    var cmd, n := tx.cmd.Some?, |tx.routed|;
    PrefixMeans(tx.routed, n);
    assert tx.routed[..n] == tx.routed;
    OtherEventsMeans(tx.routed);
    TriadAtMeans(cmd, tx.routed);
    StreamMeans(tx.registerIP, cmd, tx.routed);
    OfferPosIs(tx.offers);
    assert OfferedPos(tx) == OfferPos(tx.offers);
    hide FirstTriad, OfferedPos;
    if tx.hasStartTriad {
      var at := TriadAt(cmd, tx.routed).value;
      assert FirstTriad(cmd, tx.routed, at);
    }
  }
}
