/** Over every run: what each NS91 record and each NS92 record is, field by field, in
    terms of the raw fields of the events behind it. */
module Bodies {
  import opened Collections
  import opened Payload
  import opened Register
  import opened Transactions
  import opened Aggregation
  import opened Invariants
  import opened Numbering
  import opened Reading
  import opened Contents
  import opened Places

  // ----- what a body holds -----

  function KeyAt(events: seq<Event>, key: string): set<nat> {
    set i | 0 <= i < |events| && key in events[i]
  }

  function ValueAt(events: seq<Event>, i: nat, key: string): Json {
    if i < |events| && key in events[i] then events[i][key] else Null
  }

  /** What the events hold at a key, in order. */
  function Values(events: seq<Event>, key: string): seq<Json> {
    var at := Indices(|events|, KeyAt(events, key));
    seq(|at|, j requires 0 <= j < |at| => ValueAt(events, at[j], key))
  }

  lemma {:induction false} ValuesOfMeans(events: seq<Event>, key: string)
    ensures ValuesOf(events, key) == Values(events, key)
  {
    hide KeyAt, Indices;
    if events == [] {
      NoValues(key);
    } else {
      ValuesOfMeans(Front(events), key);
      ValuesSnoc(events, key);
      hide Values;
    }
  }

  lemma NoValues(key: string)
    ensures Values([], key) == []
  {
  }

  lemma ValuesSnoc(events: seq<Event>, key: string)
    requires events != []
    ensures Values(events, key) == Values(Front(events), key) + if key in Last(events) then [Last(events)[key]] else []
  {
    var n, front := |events|, Front(events);
    IndicesMeaning(n - 1, KeyAt(front, key));
    IndicesSame(n - 1, KeyAt(front, key), KeyAt(events, key));
    var at := Indices(n - 1, KeyAt(front, key));
    assert forall j :: 0 <= j < |at| ==> at[j] in at;
    assert n - 1 in KeyAt(events, key) <==> key in Last(events);
    assert Indices(n, KeyAt(events, key)) == at + if key in Last(events) then [n - 1] else [];
    hide KeyAt, Indices;
    forall j | 0 <= j < |at| ensures ValueAt(events, at[j], key) == ValueAt(front, at[j], key) {
    }
  }

  /** Nothing at the key when there is no value; a single value as it is unless it is
      itself a list; otherwise the list of all values. */
  ghost predicate Holds(pos: Event, key: string, values: seq<Json>) {
    (key in pos <==> values != []) &&
    (key in pos ==> pos[key] == if |values| == 1 && !values[0].Arr? then values[0] else Arr(values))
  }

  ghost predicate HoldsStatus(pos: Event, status: Option<Status>, events: seq<Event>) {
    match status
    case None => Holds(pos, "status", Values(events, "status"))
    case Some(Unknown) => "status" in pos && pos["status"] == Str("UNKNOWN")
    case Some(Abandoned) => "status" in pos && pos["status"] == Str("ABANDONED")
  }

  /** The body: metaData and header of the record, the command when it ended, domain
      and register ahead of any values of the events, the status, and at every other
      key the values of the events. */
  ghost predicate BodyIs(pos: Event, ip: string, meta: Option<Event>, header: Option<Event>, ended: bool,
                         status: Option<Status>, events: seq<Event>) {
    Carries(pos, meta, "metaData") && Carries(pos, header, "transactionHeader") &&
    ("CMD" in pos <==> ended) && (ended ==> pos["CMD"] == Str("EndTransaction")) &&
    Holds(pos, "domain", [Str("711pos2")] + Values(events, "domain")) &&
    Holds(pos, "register_ip", [Str(ip)] + Values(events, "register_ip")) &&
    HoldsStatus(pos, status, events) &&
    forall key :: key !in {"metaData", "transactionHeader", "CMD", "domain", "register_ip", "status"} ==>
      Holds(pos, key, Values(events, key))
  }

  lemma SeedMeans(tx: Transaction)
    ensures var seed := Seed(tx);
            Carries(seed, tx.metaData, "metaData") && Carries(seed, tx.transactionHeader, "transactionHeader") &&
            ("CMD" in seed <==> tx.endCmd != "") && ("CMD" in seed ==> seed["CMD"] == Str(tx.endCmd)) &&
            "domain" in seed && seed["domain"] == Str("711pos2") &&
            "register_ip" in seed && seed["register_ip"] == Str(tx.registerIP) &&
            forall key :: key in seed ==> key in {"metaData", "transactionHeader", "CMD", "domain", "register_ip"}
  {
  }

  lemma EntryReserved(pos: Event, seed: Event, events: seq<Event>, key: string)
    requires IsAggregate(pos, seed, events) && Reserved(key)
    ensures (key in pos <==> key in seed) && (key in pos ==> pos[key] == seed[key])
  {
    assert Lookup(pos, key) == Entry(seed, events, key);
  }

  lemma EntryHolds(pos: Event, seed: Event, events: seq<Event>, key: string)
    requires IsAggregate(pos, seed, events) && !Reserved(key)
    ensures Holds(pos, key, (if key in seed then [seed[key]] else []) + Values(events, key))
  {
    assert Lookup(pos, key) == Entry(seed, events, key);
    ValuesOfMeans(events, key);
    hide Values, ValuesOf;
  }

  /** The body of a record, whatever it holds. */
  lemma BodyMeans(tx: Transaction, requested: Option<Status>)
    requires tx.endCmd in {"", "EndTransaction"}
    ensures BodyIs(Ns91Pos(tx, requested), tx.registerIP, tx.metaData, tx.transactionHeader, tx.endCmd != "",
                   FinalStatus(tx, requested), tx.otherEvents)
  {
    var seed, events := Seed(tx), tx.otherEvents;
    var merged := Aggregate(seed, events);
    AggregateIsAggregate(seed, events);
    SeedMeans(tx);
    hide Seed, Aggregate, IsAggregate, FinalStatus, Values, Holds;
    EntryReserved(merged, seed, events, "metaData");
    EntryReserved(merged, seed, events, "transactionHeader");
    EntryReserved(merged, seed, events, "CMD");
    EntryHolds(merged, seed, events, "domain");
    EntryHolds(merged, seed, events, "register_ip");
    var pos := Ns91Pos(tx, requested);
    forall key | key !in {"metaData", "transactionHeader", "CMD", "domain", "register_ip"}
      ensures Holds(merged, key, Values(events, key))
    {
      EntryHolds(merged, seed, events, key);
      assert [] + Values(events, key) == Values(events, key);
    }
    forall key, values | key != "status" && Holds(merged, key, values) ensures Holds(pos, key, values) {
      HoldsElsewhere(merged, FinalStatus(tx, requested), key, values);
    }
    StatusMeans(merged, FinalStatus(tx, requested), events);
  }

  lemma HoldsElsewhere(merged: Event, status: Option<Status>, key: string, values: seq<Json>)
    requires key != "status" && Holds(merged, key, values)
    ensures Holds(merged + StatusField(status), key, values)
  {
  }

  lemma StatusMeans(merged: Event, status: Option<Status>, events: seq<Event>)
    requires Holds(merged, "status", Values(events, "status"))
    ensures HoldsStatus(merged + StatusField(status), status, events)
  {
    hide Values;
  }

  // ----- the record of a closing -----

  ghost predicate IsUnknown(c: Closing) {
    c.requested == Some(Unknown)
  }

  /** The events a record keeps: all of an unknown group's, those without metaData and
      header of a transaction. */
  ghost function Keeps(c: Closing): seq<Event> {
    var routed := c.transaction.routed;
    if IsUnknown(c) then seq(|routed|, i requires 0 <= i < |routed| => routed[i].event)
    else EventsAt(routed, Indices(|routed|, ListedAt(routed)))
  }

  ghost predicate MetaOf(c: Closing, meta: Option<Event>) {
    if IsUnknown(c) then meta == None else LastMetaIs(c.transaction.routed, |c.transaction.routed|, meta)
  }

  ghost predicate HeaderOf(c: Closing, header: Option<Event>) {
    if IsUnknown(c) then header == None else LastHeaderIs(c.transaction.routed, |c.transaction.routed|, header)
  }

  /** Ended by an EndTransaction with the triad complete. */
  ghost predicate Ended(c: Closing) {
    c.cause == EndSeenLatest && TriadBy(c.transaction.cmd.Some?, c.transaction.routed, |c.transaction.routed|)
  }

  ghost predicate EndedCart(c: Closing) {
    c.transaction.routed != [] && EndsCart(Last(c.transaction.routed).event)
  }

  /** The status asked for; but a good record without cart end and without content is
      abandoned. */
  ghost function StatusOf(c: Closing): Option<Status> {
    if c.requested.None? && !EndedCart(c) &&
       !exists e :: e in Keeps(c) && ("cartChangeTrail" in e || "paymentSummary" in e || "transactionFooter" in e)
    then Some(Abandoned) else c.requested
  }

  predicate Names(e: Event, store: string, terminal: string, txn: string) {
    "metaData" in e && e["metaData"].Obj? && store != "" && terminal != "" && txn != "" &&
    var fields := e["metaData"].fields;
    "storeNumber" in fields && fields["storeNumber"] == Str(store) &&
    "terminalNumber" in fields && fields["terminalNumber"] == Str(terminal) &&
    "transactionSeqNumber" in fields && fields["transactionSeqNumber"] == Str(txn)
  }

  /** The identity hashes register, store, terminal and number when the metaData has
      all of them as non-empty texts, and is random otherwise. */
  ghost predicate IdIs(id: EtagId, ip: string, meta: Option<Event>) {
    (forall s, t, n :: meta.Some? && Names(meta.value, s, t, n) ==> id == Named(ip + ":" + s + ":" + t + ":" + n)) &&
    ((forall s, t, n :: meta.Some? ==> !Names(meta.value, s, t, n)) ==> id == Random)
  }

  lemma IdMeans(ip: string, meta: Option<Event>)
    ensures IdIs(EtagIdOf(ip, if meta.Some? then meta.value else map[]), ip, meta)
  {
    if meta.Some? && "metaData" in meta.value && meta.value["metaData"].Obj? {
      var fields := meta.value["metaData"].fields;
      var s, t, n := StringAt(fields, "storeNumber"), StringAt(fields, "terminalNumber"),
                     StringAt(fields, "transactionSeqNumber");
      if s.Some? && t.Some? && n.Some? && s.value != "" && t.value != "" && n.value != "" {
        assert Names(meta.value, s.value, t.value, n.value);
      }
    }
  }

  /** The NS91 record of a closing for one camera. */
  ghost predicate SentAs(c: Closing, ip: string, esn: string, etag: Etag) {
    etag.namespace == 91 && etag.registerIP == ip && etag.esn == esn &&
    etag.transactionSeq == c.transaction.transactionSeq && etag.status == StatusOf(c) &&
    etag.seqNo == (|Keeps(c)| + 4) % 65536 &&
    exists meta, header :: MetaOf(c, meta) && HeaderOf(c, header) && IdIs(etag.id, ip, meta) &&
                           BodyIs(etag.pos, ip, meta, header, Ended(c), StatusOf(c), Keeps(c))
  }

  lemma GroupSentAs(c: Closing, ip: string, esn: string)
    requires ClosingOk(c, ip) && c.cause == UnknownFlush
    ensures SentAs(c, ip, esn, Ns91Etag(c, esn))
  {
    var tx := c.transaction;
    var g, key :| GroupOk(g, key, ip) && tx == GroupTransaction(g);
    hide Aggregate, Seed, Ns91Pos, BodyIs, EtagIdOf, IdIs, EndsCart, TriadBy, Ns91Pos, Window, GroupComplete;
    assert Keeps(c) == tx.otherEvents && FinalStatus(tx, c.requested) == StatusOf(c) && !Ended(c);
    BodyMeans(tx, c.requested);
    IdMeans(ip, tx.metaData);
    assert MetaOf(c, tx.metaData) && HeaderOf(c, tx.transactionHeader);
    hide Keeps, StatusOf, FinalStatus, MetaOf, HeaderOf, Ended;
  }

  /** What a closed transaction's record says about itself. */
  lemma TransactionSays(c: Closing, ip: string)
    requires ClosingOk(c, ip) && c.cause != UnknownFlush && RecordIs(c.transaction)
    ensures !IsUnknown(c) && Keeps(c) == c.transaction.otherEvents
    ensures MetaOf(c, c.transaction.metaData) && HeaderOf(c, c.transaction.transactionHeader)
    ensures c.transaction.endCmd == if Ended(c) then "EndTransaction" else ""
  {
    hide StreamSound, NumbersSound, TimesSound, TriadBy, StreamIs, FirstTriad, EventsAt, LastMetaIs, LastHeaderIs,
         ListedAt, LastMeta, LastHeader, OtherEvents, CartTimer, BelongsTo, TransactionSeqOf;
  }

  lemma TimerSays(c: Closing, ip: string)
    requires ClosingOk(c, ip) && c.cause != UnknownFlush
    ensures c.transaction.cartEnd.Some? <==> EndedCart(c)
  {
    hide StreamSound, NumbersSound, TimesSound, IsCartEnd, EndsCart, LastMeta, LastHeader, OtherEvents, BelongsTo,
         TransactionSeqOf;
    assert c.transaction.routed != [];
    Readings(Last(c.transaction.routed).event);
  }

  lemma StatusSays(c: Closing, ip: string)
    requires ClosingOk(c, ip) && c.cause != UnknownFlush && Keeps(c) == c.transaction.otherEvents
    ensures FinalStatus(c.transaction, c.requested) == StatusOf(c)
  {
    TimerSays(c, ip);
    hide ClosingOk, Keeps, EndedCart;
  }

  lemma ClosingIp(c: Closing, ip: string)
    requires ClosingOk(c, ip)
    ensures c.transaction.registerIP == ip
  {
  }

  lemma TransactionSentAs(c: Closing, ip: string, esn: string)
    requires ClosingOk(c, ip) && c.cause != UnknownFlush && RecordIs(c.transaction)
    ensures SentAs(c, ip, esn, Ns91Etag(c, esn))
  {
    var tx := c.transaction;
    hide ClosingOk, RecordIs, Keeps, MetaOf, HeaderOf, Ended, Ns91Pos, BodyIs, EtagIdOf, IdIs, StatusOf, FinalStatus;
    TransactionSays(c, ip);
    StatusSays(c, ip);
    ClosingIp(c, ip);
    BodyMeans(tx, c.requested);
    IdMeans(ip, tx.metaData);
  }

  // ----- the queue -----

  /** How many records the closings make. */
  function Cameras(closings: seq<Closing>): nat {
    if closings == [] then 0 else Cameras(Front(closings)) + |Last(closings).esns|
  }

  /** The records of the i-th closing follow those of the closings before it, one per
      camera in order. */
  lemma {:induction false} Ns91Place(closings: seq<Closing>, i: nat, j: nat)
    requires i < |closings| && j < |closings[i].esns|
    ensures Cameras(closings[..i]) + j < |Ns91Etags(closings)| == Cameras(closings)
    ensures Ns91Etags(closings)[Cameras(closings[..i]) + j] == Ns91Etag(closings[i], closings[i].esns[j])
  {
    hide Ns91Etag;
    Ns91Count(Front(closings));
    if i < |closings| - 1 {
      Ns91Place(Front(closings), i, j);
      assert Front(closings)[..i] == closings[..i];
    } else {
      assert closings[..i] == Front(closings);
    }
  }

  lemma {:induction false} Ns91Count(closings: seq<Closing>)
    ensures |Ns91Etags(closings)| == Cameras(closings)
  {
    hide Ns91Etag;
    if closings == [] {
    } else {
      Ns91Count(Front(closings));
    }
  }

  /** In every run: the NS91 queue holds, closing after closing, one record per camera
      in order, and every field of each is what the events of the closing say. */
  lemma BodiesOfRun(ip: string, created: nat, inputs: seq<Input>, i: nat, j: nat)
    requires ValidRun(Fresh(ip, created), inputs) && i < |Run(Fresh(ip, created), inputs).closings|
    requires j < |Run(Fresh(ip, created), inputs).closings[i].esns|
    ensures var closings := Run(Fresh(ip, created), inputs).closings;
            Cameras(closings[..i]) + j < |Ns91Etags(closings)| == Cameras(closings) &&
            SentAs(closings[i], ip, closings[i].esns[j], Ns91Etags(closings)[Cameras(closings[..i]) + j])
  {
    hide ValidRun, ClosingOk, RecordIs, SentAs, Run, Ns91Etags, Cameras, Fresh;
    ClosingOfRun(ip, created, inputs, i);
    ClosingPlaced(Run(Fresh(ip, created), inputs).closings, ip, i, j);
  }

  lemma ClosingPlaced(closings: seq<Closing>, ip: string, i: nat, j: nat)
    requires i < |closings| && j < |closings[i].esns|
    requires ClosingOk(closings[i], ip) && (closings[i].cause != UnknownFlush ==> RecordIs(closings[i].transaction))
    ensures Cameras(closings[..i]) + j < |Ns91Etags(closings)| == Cameras(closings)
    ensures SentAs(closings[i], ip, closings[i].esns[j], Ns91Etags(closings)[Cameras(closings[..i]) + j])
  {
    hide ClosingOk, RecordIs, SentAs, Ns91Etag, Ns91Etags, Cameras;
    Ns91Place(closings, i, j);
    if closings[i].cause == UnknownFlush {
      GroupSentAs(closings[i], ip, closings[i].esns[j]);
    } else {
      TransactionSentAs(closings[i], ip, closings[i].esns[j]);
    }
  }

  lemma ClosingOfRun(ip: string, created: nat, inputs: seq<Input>, i: nat)
    requires ValidRun(Fresh(ip, created), inputs) && i < |Run(Fresh(ip, created), inputs).closings|
    ensures var c := Run(Fresh(ip, created), inputs).closings[i];
            ClosingOk(c, ip) && (c.cause != UnknownFlush ==> RecordIs(c.transaction))
  {
    var t := Run(Fresh(ip, created), inputs);
    RunInv(ip, created, inputs);
    RunIp(ip, created, inputs);
    hide ValidRun, ClosingOk, RecordIs, Run, ActiveOk, GroupsOk, StartsOk;
    if t.closings[i].cause != UnknownFlush {
      RecordsOfRun(ip, created, inputs, t.closings[i].transaction);
    }
  }

  // ----- the event-level records -----

  /** The records of the i-th offer follow those of the offers before it, one per
      camera in order, numbered on from `first`, with a random identity. */
  lemma {:induction false} Ns92Place(ip: string, txn: string, offers: seq<Offer>, first: nat, i: nat, j: nat)
    requires i < |offers| && j < |offers[i].esns|
    ensures var k := Total(offers[..i]) + j;
            k < |Ns92Etags(ip, txn, offers, first)| == Total(offers) &&
            Ns92Etags(ip, txn, offers, first)[k] ==
            Etag(Random, ip, txn, 92, None, offers[i].esns[j], (first + k) % 65536, offers[i].pos)
  {
    EtagNumbers(ip, txn, Front(offers), first);
    EtagNumbers(ip, txn, offers, first);
    if i < |offers| - 1 {
      Ns92Place(ip, txn, Front(offers), first, i, j);
      assert Front(offers)[..i] == offers[..i];
    } else {
      assert offers[..i] == Front(offers);
      OfferIdentity(ip, offers[i].pos);
    }
    hide EtagIdOf;
  }

  lemma OfferIdentity(ip: string, pos: Event)
    ensures EtagIdOf(ip, map["_pos" := Obj(pos)]) == Random
  {
  }
}
