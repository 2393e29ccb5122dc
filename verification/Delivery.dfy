/** End to end: what becomes of the events of a run. */
module Delivery {
  import opened Collections
  import opened Payload
  import opened Register
  import opened Transactions
  import opened Aggregation
  import opened Readback
  import opened Invariants
  import opened Conservation
  import opened Statuses

  /** The NS92 stream and the record of a transaction are the closed forms of the
      events routed to it. */
  ghost predicate ExactRecord(tx: Transaction) {
    tx.otherEvents == OtherEvents(tx.routed) &&
    tx.metaData == LastMeta(tx.routed) && tx.transactionHeader == LastHeader(tx.routed) &&
    OfferPos(tx.offers) == Stream(tx.registerIP, tx.cmd.Some?, tx.routed)
  }

  lemma ClosingExact(c: Closing, ip: string)
    requires ClosingOk(c, ip) && c.cause != UnknownFlush
    ensures ExactRecord(c.transaction)
  {
    hide GroupOk, TimesSound, NumbersSound;
    if c.cause == EndSeenLatest {
      assert ExactRecord(Unmarked(c.transaction));
    }
  }

  lemma ActiveExact(tx: Transaction, key: string, ip: string)
    requires TransactionOk(tx, key, ip)
    ensures ExactRecord(tx)
  {
    hide TimesSound, NumbersSound;
  }

  /** In every run, for every transaction, active or closed: nothing is offered
      before the triad, and from then on exactly the stream, each record once. */
  lemma StreamsOfRun(ip: string, created: nat, inputs: seq<Input>)
    requires ValidRun(Fresh(ip, created), inputs)
    ensures var t := Run(Fresh(ip, created), inputs);
            (forall k :: k in t.state.active ==> ExactRecord(t.state.active[k])) &&
            forall i :: 0 <= i < |t.closings| && t.closings[i].cause != UnknownFlush ==>
              ExactRecord(t.closings[i].transaction)
  {
    RunInv(ip, created, inputs);
    var t := Run(Fresh(ip, created), inputs);
    hide Run, ExactRecord, ClosingOk, TransactionOk, GroupsOk, StartsOk;
    forall k | k in t.state.active ensures ExactRecord(t.state.active[k]) {
      ActiveExact(t.state.active[k], k, t.state.registerIP);
    }
    forall i | 0 <= i < |t.closings| && t.closings[i].cause != UnknownFlush
      ensures ExactRecord(t.closings[i].transaction)
    {
      ClosingExact(t.closings[i], t.state.registerIP);
    }
  }

  // ----- the lists the program keeps -----

  /** The event list of a place: what its NS91 is or will be made of. */
  function SourceList(t: Trace, h: Holder): seq<Event> {
    match h
    case Live(txn) => if txn in t.state.active then t.state.active[txn].otherEvents else []
    case Waiting(key) => if key in t.state.groups then t.state.groups[key].events else []
    case Closed(i) => if i < |t.closings| then t.closings[i].transaction.otherEvents else []
  }

  predicate IsGroup(t: Trace, h: Holder) {
    h.Waiting? || (h.Closed? && h.index < |t.closings| && t.closings[h.index].cause == UnknownFlush)
  }

  lemma ClosingList(c: Closing, ip: string)
    requires ClosingOk(c, ip)
    ensures c.transaction.otherEvents ==
            if c.cause == UnknownFlush then EventsOf(c.transaction.routed) else OtherEvents(c.transaction.routed)
  {
    hide StreamSound, TimesSound, NumbersSound;
  }

  lemma GroupList(g: Group, key: nat, ip: string)
    requires GroupOk(g, key, ip)
    ensures g.events == EventsOf(g.routed)
  {
  }

  /** In every run the list of every place holds exactly the events of the place in
      arrival order: all of them in a group, those without metaData and header in a
      transaction. With `EventsConserved`, no list loses, copies or reorders one. */
  lemma SourceListsOfRun(ip: string, created: nat, inputs: seq<Input>, h: Holder)
    requires ValidRun(Fresh(ip, created), inputs)
    ensures var t := Run(Fresh(ip, created), inputs);
            SourceList(t, h) == if IsGroup(t, h) then EventsOf(Held(t, h)) else OtherEvents(Held(t, h))
  {
    RunInv(ip, created, inputs);
    var t := Run(Fresh(ip, created), inputs);
    hide Run, TransactionOk, GroupOk, ClosingOk, StartsOk, ExactRecord;
    match h
    case Live(txn) =>
      if txn in t.state.active {
        ActiveExact(t.state.active[txn], txn, t.state.registerIP);
        RecordList(t.state.active[txn]);
      }
    case Waiting(key) =>
      if key in t.state.groups {
        GroupList(t.state.groups[key], key, t.state.registerIP);
      }
    case Closed(i) =>
      if i < |t.closings| {
        ClosingList(t.closings[i], t.state.registerIP);
      }
  }

  lemma RecordList(tx: Transaction)
    requires ExactRecord(tx)
    ensures tx.otherEvents == OtherEvents(tx.routed)
  {
  }

  lemma {:induction false} ValuesOfHas(events: seq<Event>, e: Event, key: string)
    requires e in events && key in e
    ensures e[key] in ValuesOf(events, key)
  {
    if e in Front(events) {
      ValuesOfHas(Front(events), e, key);
    }
  }

  /** The events a closed record is made of: all of a group's, those without metaData
      and header of a transaction. */
  function Kept(c: Closing): seq<Event> {
    if c.cause == UnknownFlush then EventsOf(c.transaction.routed) else OtherEvents(c.transaction.routed)
  }

  /** In every run, for every NS91 sent and every open key: the body has the key
      exactly when some kept event has it, and then gives back exactly the list of
      the values the kept events have there, in arrival order. */
  lemma ClosingsReadBack(ip: string, created: nat, inputs: seq<Input>, i: nat, key: string)
    requires ValidRun(Fresh(ip, created), inputs) && i < |Run(Fresh(ip, created), inputs).closings| && Open(key)
    ensures var c := Run(Fresh(ip, created), inputs).closings[i];
            var pos := Ns91Pos(c.transaction, c.requested);
            (key in pos <==> ValuesOf(Kept(c), key) != []) &&
            (key in pos ==> Separate(pos[key]) == ValuesOf(Kept(c), key))
  {
    RunInv(ip, created, inputs);
    var t := Run(Fresh(ip, created), inputs);
    var c := t.closings[i];
    hide Run, ClosingOk, ActiveOk, GroupsOk, StartsOk, Ns91Pos, Open, ValuesOf, Separate;
    ClosingList(c, t.state.registerIP);
    Ns91Readback(c.transaction, c.requested, key);
    ValuesOfPresent(c.transaction.otherEvents, key);
  }

  lemma KeptHas(c: Closing, a: Arrival)
    requires a in c.transaction.routed && (c.cause == UnknownFlush || IsOther(a.event))
    ensures a.event in Kept(c)
  {
    var i :| 0 <= i < |c.transaction.routed| && c.transaction.routed[i] == a;
    if c.cause == UnknownFlush {
      assert EventsOf(c.transaction.routed)[i] == a.event;
    } else {
      OtherEventsHold(c.transaction.routed, i);
    }
  }

  /** In every run, every event that is no demarcator is held by exactly one place,
      and when that place is a sent NS91 that keeps the event, each of its values at
      an open key can be read back from that record. */
  lemma EventsDelivered(ip: string, created: nat, inputs: seq<Input>, i: nat, key: string)
    requires ValidRun(Fresh(ip, created), inputs) && i < |inputs| && !IsDemarcator(inputs[i].event)
    ensures var t := Run(Fresh(ip, created), inputs);
            var a := Arrival(i, inputs[i].event, inputs[i].clock);
            exists h :: a in Held(t, h) && (forall h' :: a in Held(t, h') ==> h' == h) &&
                        (h.Closed? && (IsGroup(t, h) || IsOther(a.event)) && key in a.event && Open(key) ==>
                           h.index < |t.closings| &&
                           var pos := Ns91Pos(t.closings[h.index].transaction, t.closings[h.index].requested);
                           key in pos && a.event[key] in Separate(pos[key]))
  {
    EventsConserved(ip, created, inputs);
    var t := Run(Fresh(ip, created), inputs);
    var a := Arrival(i, inputs[i].event, inputs[i].clock);
    hide Run, IsDemarcator, Ns91Pos, Open, ValuesOf, Separate, FromLog, IsOther, Kept;
    assert t.log[i] == a && HeldSomewhere(t, a);
    var h :| a in Held(t, h);
    if h.Closed? && (IsGroup(t, h) || IsOther(a.event)) && key in a.event && Open(key) {
      var c := t.closings[h.index];
      ClosingsReadBack(ip, created, inputs, h.index, key);
      KeptHas(c, a);
      ValuesOfHas(Kept(c), a.event, key);
    }
  }
}
