/** What one transaction record is, in terms of the events routed to it: every
    field, and the whole NS92 stream, is a closed form of that list. */
module Transactions {
  import opened Collections
  import opened Payload
  import opened Register

  function LastMeta(routed: seq<Arrival>): Option<Event> {
    if routed == [] then None
    else if IsMeta(Last(routed).event) then Some(Last(routed).event)
    else LastMeta(Front(routed))
  }

  function LastHeader(routed: seq<Arrival>): Option<Event> {
    if routed == [] then None
    else if IsHeader(Last(routed).event) then Some(Last(routed).event)
    else LastHeader(Front(routed))
  }

  /** The events that are neither metaData nor header, in arrival order. */
  function OtherEvents(routed: seq<Arrival>): seq<Event> {
    if routed == [] then [] else
      OtherEvents(Front(routed)) + if IsOther(Last(routed).event) then [Last(routed).event] else []
  }

  /** The end-of-cart timer: set by the last event only. */
  function CartTimer(routed: seq<Arrival>): Option<nat> {
    if routed != [] && IsCartEnd(Last(routed).event) then Some(Last(routed).clock.cartEnd) else None
  }

  /** How many events it took until command, metaData and header were all there. */
  function TriadAt(cmd: bool, routed: seq<Arrival>): Option<nat> {
    if routed == [] then None
    else if TriadAt(cmd, Front(routed)).Some? then TriadAt(cmd, Front(routed))
    else if cmd && LastMeta(routed).Some? && LastHeader(routed).Some? then Some(|routed|)
    else None
  }

  /** The events held back until the triad: all others without a CMD key. */
  function PendingEvents(routed: seq<Arrival>): seq<Event> {
    if routed == [] then [] else
      PendingEvents(Front(routed))
      + if IsOther(Last(routed).event) && "CMD" !in Last(routed).event then [Last(routed).event] else []
  }

  /** The NS92 records of the events after the first `from`, each with the
      metaData known when it arrived. */
  function LaterPos(ip: string, routed: seq<Arrival>, from: nat): seq<Event> {
    if |routed| <= from then [] else
      LaterPos(ip, Front(routed), from)
      + if Skipped(Last(routed).event) then [] else [EventPos(ip, LastMeta(routed), Last(routed).event)]
  }

  function PosOf(ip: string, meta: Option<Event>, events: seq<Event>): seq<Event> {
    if events == [] then [] else PosOf(ip, meta, Front(events)) + [EventPos(ip, meta, Last(events))]
  }

  /** The whole NS92 stream of a transaction: nothing before the triad; then the
      combined start record, the events held back, and the later events. */
  function Stream(ip: string, cmd: bool, routed: seq<Arrival>): seq<Event> {
    var at := TriadAt(cmd, routed);
    if at.None? || at.value > |routed| then [] else
      var known := routed[..at.value];
      [StartPos(ip, LastMeta(known), LastHeader(known))]
      + PosOf(ip, LastMeta(known), PendingEvents(known))
      + LaterPos(ip, routed, at.value)
  }

  function OfferPos(offers: seq<Offer>): seq<Event> {
    if offers == [] then [] else OfferPos(Front(offers)) + [Last(offers).pos]
  }

  // ----- soundness of a record -----

  ghost predicate FieldsSound(tx: Transaction) {
    !tx.isComplete && !tx.ns91Sent && tx.endCmd == "" &&
    tx.metaData == LastMeta(tx.routed) &&
    tx.transactionHeader == LastHeader(tx.routed) &&
    tx.otherEvents == OtherEvents(tx.routed) &&
    tx.cartEnd == CartTimer(tx.routed)
  }

  ghost predicate TimesSound(tx: Transaction) {
    (tx.routed != [] ==> tx.startedAt == tx.routed[0].clock.now && tx.lastActivity == Last(tx.routed).clock.now) &&
    forall i :: 0 <= i < |tx.routed| ==> !IsDemarcator(tx.routed[i].event)
  }

  ghost predicate StreamSound(tx: Transaction) {
    var cmd := tx.cmd.Some?;
    tx.hasStartTriad == TriadAt(cmd, tx.routed).Some? &&
    tx.individualNs92Allowed == tx.hasStartTriad &&
    tx.pending == (if tx.hasStartTriad then [] else PendingEvents(tx.routed)) &&
    OfferPos(tx.offers) == Stream(tx.registerIP, cmd, tx.routed)
  }

  ghost predicate NumbersSound(tx: Transaction) {
    tx.seqCounter == (1 + Total(tx.offers)) % UINT16
  }

  ghost predicate Sound(tx: Transaction) {
    FieldsSound(tx) && TimesSound(tx) && StreamSound(tx) && NumbersSound(tx)
  }

  lemma NewTransactionSound(ip: string, txn: string, now: nat, cmd: Option<nat>)
    ensures Sound(NewTransaction(ip, txn, now, cmd))
  {
  }

  // ----- the triad -----

  lemma {:induction false} TriadAtInRange(cmd: bool, routed: seq<Arrival>)
    ensures TriadAt(cmd, routed).Some? ==> 0 < TriadAt(cmd, routed).value <= |routed|
  {
    if routed == [] {
    } else {
      TriadAtInRange(cmd, Front(routed));
    }
  }

  /** The triad has been confirmed exactly when all three parts are present. */
  lemma {:induction false} TriadIffComplete(cmd: bool, routed: seq<Arrival>)
    ensures TriadAt(cmd, routed).Some? <==> cmd && LastMeta(routed).Some? && LastHeader(routed).Some?
  {
    if routed == [] {
    } else {
      TriadIffComplete(cmd, Front(routed));
    }
  }

  // ----- receiving one event -----

  lemma RoutedSnoc(tx: Transaction, a: Arrival)
    ensures Absorb(tx, a).routed == tx.routed + [a]
    ensures Front(tx.routed + [a]) == tx.routed && Last(tx.routed + [a]) == a
  {
  }

  lemma ClosedFormsSnoc(routed: seq<Arrival>, a: Arrival)
    ensures LastMeta(routed + [a]) == if IsMeta(a.event) then Some(a.event) else LastMeta(routed)
    ensures LastHeader(routed + [a]) == if IsHeader(a.event) then Some(a.event) else LastHeader(routed)
    ensures OtherEvents(routed + [a]) == OtherEvents(routed) + if IsOther(a.event) then [a.event] else []
    ensures CartTimer(routed + [a]) == if IsCartEnd(a.event) then Some(a.clock.cartEnd) else None
    ensures IsCartEnd(a.event) ==> IsOther(a.event)
  {
    assert Front(routed + [a]) == routed && Last(routed + [a]) == a;
  }

  lemma AbsorbFields(tx: Transaction, a: Arrival)
    requires FieldsSound(tx)
    ensures FieldsSound(Absorb(tx, a))
  {
    ClosedFormsSnoc(tx.routed, a);
    hide IsCartEnd, LastMeta, LastHeader, OtherEvents, CartTimer;
  }

  /** After the event is absorbed, only the NS92 fields still change. */
  lemma ReceiveKeepsFields(tx: Transaction, a: Arrival, esns: seq<string>)
    ensures var r := Receive(tx, a, esns);
            r == Absorb(tx, a).(hasStartTriad := r.hasStartTriad, individualNs92Allowed := r.individualNs92Allowed,
                                pending := r.pending, offers := r.offers, seqCounter := r.seqCounter)
  {
    hide Absorb, ConfirmTriad, Forward;
    ConfirmKeepsFields(Absorb(tx, a), esns);
    ForwardKeepsFields(ConfirmTriad(Absorb(tx, a), esns), a.event, esns);
  }

  lemma ConfirmKeepsFields(tx: Transaction, esns: seq<string>)
    ensures var r := ConfirmTriad(tx, esns);
            r == tx.(hasStartTriad := r.hasStartTriad, individualNs92Allowed := r.individualNs92Allowed,
                     pending := r.pending, offers := r.offers, seqCounter := r.seqCounter)
  {
    hide Continues, SendEach, SendNs92;
  }

  lemma ForwardKeepsFields(tx: Transaction, e: Event, esns: seq<string>)
    ensures var r := Forward(tx, e, esns);
            r == tx.(pending := r.pending, offers := r.offers, seqCounter := r.seqCounter)
  {
    hide Continues, Skipped, EventPos;
  }

  lemma ReceiveFields(tx: Transaction, a: Arrival, esns: seq<string>)
    requires FieldsSound(tx)
    ensures FieldsSound(Receive(tx, a, esns))
  {
    AbsorbFields(tx, a);
    ReceiveKeepsFields(tx, a, esns);
    hide Receive, Absorb, LastMeta, LastHeader, OtherEvents, CartTimer;
  }

  lemma AbsorbTimes(tx: Transaction, a: Arrival)
    requires TimesSound(tx) && !IsDemarcator(a.event)
    requires tx.routed == [] ==> tx.startedAt == a.clock.now
    ensures TimesSound(Absorb(tx, a)) && Absorb(tx, a).routed == tx.routed + [a]
    ensures Absorb(tx, a).cmd == tx.cmd && Absorb(tx, a).registerIP == tx.registerIP
    ensures Absorb(tx, a).transactionSeq == tx.transactionSeq
  {
    hide IsDemarcator, IsCartEnd, IsMeta, IsHeader;
    var routed := tx.routed + [a];
    assert Last(routed) == a && routed[0] == if tx.routed == [] then a else tx.routed[0];
  }

  lemma ReceiveTimes(tx: Transaction, a: Arrival, esns: seq<string>)
    requires TimesSound(tx) && !IsDemarcator(a.event)
    requires tx.routed == [] ==> tx.startedAt == a.clock.now
    ensures TimesSound(Receive(tx, a, esns)) && Receive(tx, a, esns).routed == tx.routed + [a]
    ensures Receive(tx, a, esns).cmd == tx.cmd && Receive(tx, a, esns).registerIP == tx.registerIP
    ensures Receive(tx, a, esns).transactionSeq == tx.transactionSeq
  {
    ReceiveKeepsFields(tx, a, esns);
    AbsorbTimes(tx, a);
    hide Receive, Absorb, IsDemarcator;
  }

  lemma ReceiveNumbers(tx: Transaction, a: Arrival, esns: seq<string>)
    requires NumbersSound(tx)
    ensures NumbersSound(Receive(tx, a, esns))
  {
    ReceiveContinues(tx, a, esns);
    hide Receive, NewEtags, Total;
    var after := Receive(tx, a, esns);
    var more := after.offers[|tx.offers|..];
    assert after.offers == tx.offers + more;
    TotalAppend(tx.offers, more);
    ModAbsorb(1 + Total(tx.offers), Total(more));
  }

  // ----- the stream -----

  lemma OfferPosSnoc(offers: seq<Offer>, o: Offer)
    ensures OfferPos(offers + [o]) == OfferPos(offers) + [o.pos]
  {
    assert Front(offers + [o]) == offers && Last(offers + [o]) == o;
  }

  lemma {:induction false} SendEachPos(tx: Transaction, events: seq<Event>, esns: seq<string>)
    ensures OfferPos(SendEach(tx, events, esns).offers) ==
            OfferPos(tx.offers) + PosOf(tx.registerIP, tx.metaData, events)
  {
    hide EventPos, Continues;
    if events == [] {
    } else {
      SendEachPos(tx, Front(events), esns);
      OfferPosSnoc(SendEach(tx, Front(events), esns).offers,
                   Offer(EventPos(tx.registerIP, tx.metaData, Last(events)), esns));
    }
  }

  /** An event completing the triad is itself a metaData or a header. */
  lemma TriadSnoc(cmd: bool, routed: seq<Arrival>, a: Arrival)
    ensures TriadAt(cmd, routed).Some? ==> TriadAt(cmd, routed + [a]) == TriadAt(cmd, routed)
    ensures TriadAt(cmd, routed).None? ==>
              TriadAt(cmd, routed + [a]) ==
              if cmd && LastMeta(routed + [a]).Some? && LastHeader(routed + [a]).Some?
              then Some(|routed| + 1) else None
    ensures TriadAt(cmd, routed).None? && TriadAt(cmd, routed + [a]).Some? ==> !IsOther(a.event)
  {
    assert Front(routed + [a]) == routed && Last(routed + [a]) == a;
    TriadIffComplete(cmd, routed);
    ClosedFormsSnoc(routed, a);
  }

  lemma PendingSnoc(routed: seq<Arrival>, a: Arrival)
    ensures PendingEvents(routed + [a]) ==
            PendingEvents(routed) + if IsOther(a.event) && "CMD" !in a.event then [a.event] else []
  {
    assert Front(routed + [a]) == routed && Last(routed + [a]) == a;
  }

  lemma LaterSnoc(ip: string, routed: seq<Arrival>, a: Arrival, from: nat)
    requires from <= |routed|
    ensures LaterPos(ip, routed + [a], from) ==
            LaterPos(ip, routed, from)
            + if Skipped(a.event) then [] else [EventPos(ip, LastMeta(routed + [a]), a.event)]
  {
    assert Front(routed + [a]) == routed && Last(routed + [a]) == a;
  }

  // How the closed form of the stream grows.

  lemma StreamAfterTriad(ip: string, cmd: bool, routed: seq<Arrival>, a: Arrival)
    requires TriadAt(cmd, routed).Some?
    ensures Stream(ip, cmd, routed + [a]) ==
            Stream(ip, cmd, routed)
            + if Skipped(a.event) then [] else [EventPos(ip, LastMeta(routed + [a]), a.event)]
  {
    hide TriadAt, LastMeta, LastHeader, EventPos, StartPos, PosOf, PendingEvents, LaterPos, Skipped, IsOther;
    TriadSnoc(cmd, routed, a);
    TriadAtInRange(cmd, routed);
    var k := TriadAt(cmd, routed).value;
    LaterSnoc(ip, routed, a, k);
    assert (routed + [a])[..k] == routed[..k];
    var head := [StartPos(ip, LastMeta(routed[..k]), LastHeader(routed[..k]))]
                + PosOf(ip, LastMeta(routed[..k]), PendingEvents(routed[..k]));
    assert Stream(ip, cmd, routed) == head + LaterPos(ip, routed, k);
    assert Stream(ip, cmd, routed + [a]) == head + LaterPos(ip, routed + [a], k);
    hide Stream;
  }

  lemma StreamAtTriad(ip: string, cmd: bool, routed: seq<Arrival>, a: Arrival)
    requires TriadAt(cmd, routed).None? && TriadAt(cmd, routed + [a]).Some?
    ensures Stream(ip, cmd, routed) == []
    ensures var all := routed + [a];
            Stream(ip, cmd, all) ==
            [StartPos(ip, LastMeta(all), LastHeader(all))] + PosOf(ip, LastMeta(all), PendingEvents(routed))
  {
    TriadSnoc(cmd, routed, a);
    PendingSnoc(routed, a);
    var all := routed + [a];
    assert all[..|all|] == all;
    assert PendingEvents(all) == PendingEvents(routed);
    var stream := [StartPos(ip, LastMeta(all), LastHeader(all))] + PosOf(ip, LastMeta(all), PendingEvents(all));
    assert stream + LaterPos(ip, all, |all|) == stream;
  }

  // What the record does with the event.

  lemma ReceiveAfterTriad(tx: Transaction, a: Arrival, esns: seq<string>)
    requires tx.hasStartTriad && tx.individualNs92Allowed
    ensures var r := Receive(tx, a, esns);
            r.hasStartTriad && r.individualNs92Allowed && r.pending == tx.pending &&
            OfferPos(r.offers) == OfferPos(tx.offers)
              + if Skipped(a.event) then [] else [EventPos(tx.registerIP, Absorb(tx, a).metaData, a.event)]
  {
    hide Skipped, IsCartEnd, EventPos, OfferPos;
    var absorbed := Absorb(tx, a);
    assert ConfirmTriad(absorbed, esns) == absorbed && absorbed.individualNs92Allowed;
    hide ConfirmTriad, Absorb;
    AbsorbOffersNothing(tx, a);
    OfferPosSnoc(tx.offers, Offer(EventPos(tx.registerIP, absorbed.metaData, a.event), esns));
  }

  lemma ReceiveAtTriad(tx: Transaction, a: Arrival, esns: seq<string>)
    requires TriadReady(Absorb(tx, a)) && !IsOther(a.event) && tx.offers == []
    ensures var r := Receive(tx, a, esns);
            r.hasStartTriad && r.individualNs92Allowed && r.pending == [] &&
            OfferPos(r.offers) ==
            [StartPos(tx.registerIP, Absorb(tx, a).metaData, Absorb(tx, a).transactionHeader)]
            + PosOf(tx.registerIP, Absorb(tx, a).metaData, tx.pending)
  {
    hide IsDemarcator, EventPos, StartPos, PosOf, OfferPos;
    var absorbed := Absorb(tx, a);
    AbsorbOffersNothing(tx, a);
    assert absorbed.pending == tx.pending && absorbed.registerIP == tx.registerIP && absorbed.offers == [];
    assert Skipped(a.event);
    ConfirmAtTriad(absorbed, esns);
    hide Absorb, ConfirmTriad, Skipped;
  }

  lemma ConfirmAtTriad(tx: Transaction, esns: seq<string>)
    requires TriadReady(tx) && tx.offers == []
    ensures var r := ConfirmTriad(tx, esns);
            r.hasStartTriad && r.individualNs92Allowed && r.pending == [] &&
            OfferPos(r.offers) ==
            [StartPos(tx.registerIP, tx.metaData, tx.transactionHeader)] + PosOf(tx.registerIP, tx.metaData, tx.pending)
  {
    hide StartPos, Continues, PosOf, SendEach;
    var allowed := tx.(hasStartTriad := true, individualNs92Allowed := true);
    var pos := StartPos(tx.registerIP, tx.metaData, tx.transactionHeader);
    var started := SendNs92(allowed, pos, esns);
    SendEachPos(started, tx.pending, esns);
    OfferPosSnoc([], Offer(pos, esns));
  }

  lemma ReceiveBeforeTriad(tx: Transaction, a: Arrival, esns: seq<string>)
    requires !tx.hasStartTriad && !tx.individualNs92Allowed && !TriadReady(Absorb(tx, a))
    ensures var r := Receive(tx, a, esns);
            !r.hasStartTriad && !r.individualNs92Allowed && r.offers == tx.offers &&
            r.pending == tx.pending + if IsOther(a.event) && "CMD" !in a.event then [a.event] else []
  {
    hide IsCartEnd;
  }

  lemma ReceiveStream(tx: Transaction, a: Arrival, esns: seq<string>)
    requires StreamSound(tx) && FieldsSound(tx)
    ensures StreamSound(Receive(tx, a, esns))
  {
    var cmd, r := tx.cmd.Some?, tx.routed;
    RoutedSnoc(tx, a);
    AbsorbFields(tx, a);
    ReceiveKeepsFields(tx, a, esns);
    TriadSnoc(cmd, r, a);
    var ready := TriadReady(Absorb(tx, a));
    hide Receive, Absorb, TriadAt, Stream, PendingEvents, LastMeta, LastHeader, Skipped, IsOther, OfferPos, Total;
    if tx.hasStartTriad {
      ReceiveAfterTriad(tx, a, esns);
      StreamAfterTriad(tx.registerIP, cmd, r, a);
    } else if ready {
      OffersEmpty(tx);
      ReceiveAtTriad(tx, a, esns);
      StreamAtTriad(tx.registerIP, cmd, r, a);
    } else {
      ReceiveBeforeTriad(tx, a, esns);
      PendingSnoc(r, a);
      StreamBeforeTriad(tx.registerIP, cmd, r);
      StreamBeforeTriad(tx.registerIP, cmd, r + [a]);
    }
  }

  lemma StreamBeforeTriad(ip: string, cmd: bool, routed: seq<Arrival>)
    ensures TriadAt(cmd, routed).None? ==> Stream(ip, cmd, routed) == []
  {
  }

  lemma OffersEmpty(tx: Transaction)
    requires StreamSound(tx) && !tx.hasStartTriad
    ensures tx.offers == []
  {
    assert OfferPos(tx.offers) == [];
  }

  /** A sound record stays sound: it remains the closed form of its events. */
  lemma ReceiveSound(tx: Transaction, a: Arrival, esns: seq<string>)
    requires Sound(tx) && !IsDemarcator(a.event) && (tx.routed == [] ==> tx.startedAt == a.clock.now)
    ensures Sound(Receive(tx, a, esns))
  {
    hide Receive, IsDemarcator;
    ReceiveFields(tx, a, esns);
    ReceiveTimes(tx, a, esns);
    ReceiveStream(tx, a, esns);
    ReceiveNumbers(tx, a, esns);
  }
}
