/** The state of one register and its step function, on values.

    A step is deterministic once the orders in which Go happens to iterate over
    its maps are fixed; those orders are the `Choice` of an input, and every
    theorem quantifies over all valid choices. Fields marked `history` do not
    influence behaviour: they record what happened so that theorems can speak
    about it. Times are nanoseconds. */
module Register {
  import opened Collections
  import opened Payload

  const SECOND: nat := 1_000_000_000
  const UINT16: nat := 0x1_0000
  type Uint16 = n: nat | n < 0x1_0000
  const DOMAIN := "711pos2"

  datatype Status = Unknown | Abandoned

  /** The readings of the clock made while one event is processed. */
  datatype Clock = Clock(arrival: nat, unknownSweep: nat, transactionSweep: nat, now: nat, cartEnd: nat)
  {
    predicate Ordered() { arrival <= unknownSweep <= transactionSweep <= now <= cartEnd }
  }

  /** An entry of the register's arrival log. */
  datatype Arrival = Arrival(ordinal: nat, event: Event, clock: Clock)

  /** One event-level NS92 emission, fanned out to the cameras `esns`. */
  datatype Offer = Offer(pos: Event, esns: seq<string>)

  datatype Transaction = Transaction(
    transactionSeq: string,
    registerIP: string,
    startedAt: nat,
    lastActivity: nat,
    isComplete: bool,
    ns91Sent: bool,
    hasStartTriad: bool,
    individualNs92Allowed: bool,
    cartEnd: Option<nat>,
    cmd: Option<nat>,
    metaData: Option<Event>,
    transactionHeader: Option<Event>,
    endCmd: string,
    otherEvents: seq<Event>,
    pending: seq<Event>,
    seqCounter: Uint16,
    routed: seq<Arrival>,  // history
    offers: seq<Offer>)    // history

  datatype Group = Group(
    registerIP: string,
    events: seq<Event>,
    firstSeen: nat,
    lastActivity: nat,
    windowKey: nat,
    routed: seq<Arrival>)  // history

  datatype State = State(
    registerIP: string,
    active: map<string, Transaction>,
    groups: map<nat, Group>,
    pendingStart: Option<nat>,
    lastActivity: nat)

  /** Why an NS91 was sent. */
  datatype Cause = StartSeen | EndSeenOther | EndSeenLatest | CartEndSilence | GeneralTimeout | UnknownFlush

  /** One call of sendToNS91: the record sent, the status asked for, the cameras. */
  datatype Closing = Closing(transaction: Transaction, requested: Option<Status>, cause: Cause, esns: seq<string>)

  /** The identity of an ETag: a name-based UUID (version 5) is known by the name it hashes. */
  datatype EtagId = Named(name: string) | Random

  datatype Etag = Etag(
    id: EtagId,
    registerIP: string,
    transactionSeq: string,
    namespace: nat,
    status: Option<Status>,
    esn: string,
    seqNo: nat,
    pos: Event)

  /** A register together with everything that happened at it so far. */
  datatype Trace = Trace(state: State, log: seq<Arrival>, closings: seq<Closing>, ns92: seq<Etag>)

  /** The map iteration orders of one event: those of the two sweeps, and the
      ones the handler depends on (the latest transaction found, the groups
      flushed, the transactions abandoned). */
  datatype Dispatching = Dispatching(latest: string, flushed: seq<nat>, abandoned: seq<string>)
  datatype Choice = Choice(staleGroups: seq<nat>, timedOut: seq<string>, dispatch: Dispatching)

  datatype Input = Input(event: Event, clock: Clock, esns: seq<string>, choice: Choice)

  // ----- what is sent -----

  function EtagIdOf(ip: string, e: Event): EtagId {
    var meta := ObjectAt(e, "metaData");
    if meta.None? then Random else
      var store := StringAt(meta.value, "storeNumber");
      var terminal := StringAt(meta.value, "terminalNumber");
      var txn := StringAt(meta.value, "transactionSeqNumber");
      if store.Some? && store.value != "" && terminal.Some? && terminal.value != "" && txn.Some? && txn.value != ""
      then Named(ip + ":" + store.value + ":" + terminal.value + ":" + txn.value)
      else Random
  }

  /** The field `key` of a stored event, when present and not null. */
  function Field(stored: Option<Event>, key: string): Event {
    if stored.Some? && key in stored.value && stored.value[key] != Null
    then map[key := stored.value[key]] else map[]
  }

  function BasePos(ip: string): Event {
    map["domain" := Str(DOMAIN), "register_ip" := Str(ip)]
  }

  function StartPos(ip: string, meta: Option<Event>, header: Option<Event>): Event {
    BasePos(ip) + map["CMD" := Str("StartTransaction")]
    + Field(meta, "metaData") + Field(header, "transactionHeader")
  }

  function EventPos(ip: string, meta: Option<Event>, e: Event): Event {
    BasePos(ip) + Field(meta, "metaData") + (e - {"metaData"})
  }

  /** The ETags of one NS92 offer, numbered from `first` in the 16-bit counter. */
  function OfferEtags(ip: string, txn: string, offer: Offer, first: nat): seq<Etag> {
    seq(|offer.esns|, i requires 0 <= i < |offer.esns| =>
      Etag(EtagIdOf(ip, map["_pos" := Obj(offer.pos)]), ip, txn, 92, None, offer.esns[i],
           (first + i) % UINT16, offer.pos))
  }

  function Total(offers: seq<Offer>): nat {
    if offers == [] then 0 else Total(Front(offers)) + |Last(offers).esns|
  }

  function Ns92Etags(ip: string, txn: string, offers: seq<Offer>, first: nat): seq<Etag> {
    if offers == [] then [] else
      Ns92Etags(ip, txn, Front(offers), first)
      + OfferEtags(ip, txn, Last(offers), (first + Total(Front(offers))) % UINT16)
  }

  /** `after` is `before` with more offers, the counter advanced accordingly. */
  predicate Continues(before: Transaction, after: Transaction) {
    before.offers <= after.offers &&
    before.registerIP == after.registerIP && before.transactionSeq == after.transactionSeq &&
    after.seqCounter == (before.seqCounter + Total(after.offers[|before.offers|..])) % UINT16
  }

  /** What `after` has offered beyond `before`, as ETags. */
  function NewEtags(before: Transaction, after: Transaction): seq<Etag>
    requires Continues(before, after)
  {
    Ns92Etags(before.registerIP, before.transactionSeq, after.offers[|before.offers|..], before.seqCounter)
  }

  lemma {:induction false} TotalAppend(a: seq<Offer>, b: seq<Offer>)
    ensures Total(a + b) == Total(a) + Total(b)
  {
    if b == [] {
      assert a + b == a;
    } else {
      assert Front(a + b) == a + Front(b) && Last(a + b) == Last(b);
      TotalAppend(a, Front(b));
    }
  }

  lemma {:induction false} Ns92EtagsAppend(ip: string, txn: string, a: seq<Offer>, b: seq<Offer>, first: nat)
    ensures Ns92Etags(ip, txn, a + b, first) ==
            Ns92Etags(ip, txn, a, first) + Ns92Etags(ip, txn, b, (first + Total(a)) % UINT16)
  {
    hide OfferEtags;
    if b == [] {
      assert a + b == a;
    } else {
      assert Front(a + b) == a + Front(b) && Last(a + b) == Last(b);
      Ns92EtagsAppend(ip, txn, a, Front(b), first);
      TotalAppend(a, Front(b));
      ModAbsorb(first + Total(a), Total(Front(b)));
    }
  }

  lemma ModAbsorb(x: nat, y: nat)
    ensures (x % UINT16 + y) % UINT16 == (x + y) % UINT16
  {
  }

  lemma ContinuesTransitive(before: Transaction, mid: Transaction, after: Transaction)
    requires Continues(before, mid) && Continues(mid, after)
    ensures Continues(before, after)
  {
    hide Total;
    var a, b := mid.offers[|before.offers|..], after.offers[|mid.offers|..];
    assert after.offers[|before.offers|..] == a + b;
    TotalAppend(a, b);
    ModAbsorb(before.seqCounter + Total(a), Total(b));
  }

  /** NewEtags looks only at the identity, the offers and the counter. */
  lemma NewEtagsFrame(before: Transaction, after: Transaction, before': Transaction, after': Transaction)
    requires Continues(before', after')
    requires before.offers == before'.offers && before.seqCounter == before'.seqCounter
    requires before.registerIP == before'.registerIP && before.transactionSeq == before'.transactionSeq
    requires after.offers == after'.offers && after.seqCounter == after'.seqCounter
    requires after.registerIP == after'.registerIP && after.transactionSeq == after'.transactionSeq
    ensures Continues(before, after) && NewEtags(before, after) == NewEtags(before', after')
  {
  }

  lemma NewEtagsNone(tx: Transaction)
    ensures Continues(tx, tx) && NewEtags(tx, tx) == []
  {
  }

  /** The queue grew by exactly the new ETags of this register. */
  ghost predicate Offered92(q0: seq<Etag>, n0: seq<Etag>, q1: seq<Etag>, n1: seq<Etag>) {
    n0 <= n1 && q1 == q0 + n1[|n0|..]
  }

  /** Two stretches of offers are numbered as one. */
  lemma NewEtagsTransitive(before: Transaction, mid: Transaction, after: Transaction)
    requires Continues(before, mid) && Continues(mid, after)
    ensures Continues(before, after)
    ensures NewEtags(before, after) == NewEtags(before, mid) + NewEtags(mid, after)
  {
    hide Ns92Etags, Total;
    ContinuesTransitive(before, mid, after);
    var a, b := mid.offers[|before.offers|..], after.offers[|mid.offers|..];
    assert after.offers[|before.offers|..] == a + b;
    Ns92EtagsAppend(before.registerIP, before.transactionSeq, a, b, before.seqCounter);
  }

  // ----- transactions -----

  function NewTransaction(ip: string, txn: string, now: nat, cmd: Option<nat>): Transaction {
    Transaction(txn, ip, now, now, false, false, false, false, None, cmd, None, None, "", [], [], 1, [], [])
  }

  /** An event that is neither metaData nor header joins the transaction's list;
      a cart event ending the transaction starts the timer. */
  function Record(tx: Transaction, a: Arrival): Transaction {
    tx.(otherEvents := tx.otherEvents + [a.event],
        cartEnd := if IsCartEnd(a.event) then Some(a.clock.cartEnd) else None)
  }

  function Absorb(tx: Transaction, a: Arrival): Transaction {
    var base := tx.(lastActivity := a.clock.now, cartEnd := None, routed := tx.routed + [a]);
    if IsMeta(a.event) then base.(metaData := Some(a.event))
    else if IsHeader(a.event) then base.(transactionHeader := Some(a.event))
    else Record(base, a)
  }

  function SendNs92(tx: Transaction, pos: Event, esns: seq<string>): (r: Transaction)
    ensures Continues(tx, r)
  {
    assert (tx.offers + [Offer(pos, esns)])[|tx.offers|..] == [Offer(pos, esns)];
    assert Total([Offer(pos, esns)]) == Total([]) + |esns|;
    tx.(offers := tx.offers + [Offer(pos, esns)], seqCounter := (tx.seqCounter + |esns|) % UINT16)
  }

  lemma SendEtags(tx: Transaction, pos: Event, esns: seq<string>)
    ensures NewEtags(tx, SendNs92(tx, pos, esns)) ==
            OfferEtags(tx.registerIP, tx.transactionSeq, Offer(pos, esns), tx.seqCounter)
  {
    var offer := Offer(pos, esns);
    assert (tx.offers + [offer])[|tx.offers|..] == [offer];
    assert Front([offer]) == [] && Last([offer]) == offer;
    assert Ns92Etags(tx.registerIP, tx.transactionSeq, [offer], tx.seqCounter) ==
           [] + OfferEtags(tx.registerIP, tx.transactionSeq, offer, tx.seqCounter);
  }

  function SendEach(tx: Transaction, events: seq<Event>, esns: seq<string>): (r: Transaction)
    ensures r == tx.(offers := r.offers, seqCounter := r.seqCounter) && Continues(tx, r)
  {
    if events == [] then tx else
      var before := SendEach(tx, Front(events), esns);
      var after := SendNs92(before, EventPos(tx.registerIP, tx.metaData, Last(events)), esns);
      ContinuesTransitive(tx, before, after);
      after
  }

  /** The combined start record, then every pending event. */
  function StartStream(tx: Transaction, esns: seq<string>): (r: Transaction)
    ensures r == tx.(offers := r.offers, seqCounter := r.seqCounter) && Continues(tx, r)
  {
    var started := SendNs92(tx, StartPos(tx.registerIP, tx.metaData, tx.transactionHeader), esns);
    ContinuesTransitive(tx, started, SendEach(started, tx.pending, esns));
    SendEach(started, tx.pending, esns)
  }

  predicate TriadReady(tx: Transaction) {
    tx.cmd.Some? && tx.metaData.Some? && tx.transactionHeader.Some? && !tx.hasStartTriad
  }

  function ConfirmTriad(tx: Transaction, esns: seq<string>): (r: Transaction)
    ensures Continues(tx, r)
  {
    if !TriadReady(tx) then tx else
      StartStream(tx.(hasStartTriad := true, individualNs92Allowed := true), esns).(pending := [])
  }

  /** Events that never become an NS92 of their own once the triad is confirmed. */
  predicate Skipped(e: Event) {
    IsDemarcator(e) || "metaData" in e || "transactionHeader" in e || "paymentSummary" in e ||
    "transactionSummary" in e || "transactionFooter" in e
  }

  function Forward(tx: Transaction, e: Event, esns: seq<string>): (r: Transaction)
    ensures Continues(tx, r)
  {
    if tx.individualNs92Allowed then
      if Skipped(e) then tx else SendNs92(tx, EventPos(tx.registerIP, tx.metaData, e), esns)
    else if "CMD" !in e && "metaData" !in e && "transactionHeader" !in e then
      tx.(pending := tx.pending + [e])
    else tx
  }

  function Receive(tx: Transaction, a: Arrival, esns: seq<string>): Transaction {
    Forward(ConfirmTriad(Absorb(tx, a), esns), a.event, esns)
  }

  lemma NewTransactionIdentity(ip: string, txn: string, now: nat, cmd: Option<nat>)
    ensures NewTransaction(ip, txn, now, cmd).registerIP == ip
  {
  }

  lemma AbsorbOffersNothing(tx: Transaction, a: Arrival)
    ensures Absorb(tx, a).offers == tx.offers && Absorb(tx, a).seqCounter == tx.seqCounter
    ensures Absorb(tx, a).registerIP == tx.registerIP && Absorb(tx, a).transactionSeq == tx.transactionSeq
  {
  }

  lemma ReceiveContinues(tx: Transaction, a: Arrival, esns: seq<string>)
    ensures Continues(tx, Receive(tx, a, esns))
    ensures NewEtags(tx, Receive(tx, a, esns)) ==
            NewEtags(Absorb(tx, a), ConfirmTriad(Absorb(tx, a), esns))
            + NewEtags(ConfirmTriad(Absorb(tx, a), esns), Receive(tx, a, esns))
  {
    hide Absorb, ConfirmTriad, Forward, Continues, NewEtags;
    var absorbed := Absorb(tx, a);
    var confirmed := ConfirmTriad(absorbed, esns);
    var received := Forward(confirmed, a.event, esns);
    AbsorbOffersNothing(tx, a);
    NewEtagsTransitive(absorbed, confirmed, received);
    NewEtagsFrame(tx, received, absorbed, received);
  }

  // ----- closing -----

  function CloseTransaction(t: Trace, txn: string, requested: Option<Status>, cause: Cause, esns: seq<string>): Trace {
    if txn !in t.state.active then t else
      t.(state := t.state.(active := t.state.active - {txn}),
         closings := t.closings + [Closing(t.state.active[txn], requested, cause, esns)])
  }

  /** The stand-in transaction an unknown group is sent as. */
  function GroupTransaction(g: Group): Transaction {
    Transaction("", g.registerIP, 0, 0, false, false, false, false, None, None, None, None, "",
                g.events, [], 1, g.routed, [])
  }

  function FlushGroup(t: Trace, key: nat, esns: seq<string>): Trace {
    if key !in t.state.groups then t else
      t.(state := t.state.(groups := t.state.groups - {key}),
         closings := t.closings
           + [Closing(GroupTransaction(t.state.groups[key]), Some(Unknown), UnknownFlush, esns)])
  }

  function FlushGroups(t: Trace, keys: seq<nat>, esns: seq<string>): Trace {
    if keys == [] then t else FlushGroup(FlushGroups(t, Front(keys), esns), Last(keys), esns)
  }

  predicate CartEndExpired(tx: Transaction, now: nat) {
    tx.cartEnd.Some? && tx.cartEnd.value + 10 * SECOND < now
  }

  predicate Idle(tx: Transaction, now: nat) {
    tx.lastActivity + 60 * SECOND < now
  }

  predicate TimedOut(tx: Transaction, now: nat) {
    !tx.isComplete && (CartEndExpired(tx, now) || Idle(tx, now))
  }

  /** Silence after a cart end completes a transaction; plain silence abandons it. */
  function TimeoutStatus(tx: Transaction, now: nat): Option<Status> {
    if CartEndExpired(tx, now) then None else Some(Abandoned)
  }

  function TimeoutCause(tx: Transaction, now: nat): Cause {
    if CartEndExpired(tx, now) then CartEndSilence else GeneralTimeout
  }

  function TimeOut(t: Trace, txn: string, now: nat, esns: seq<string>): Trace {
    if txn !in t.state.active then t else
      CloseTransaction(t, txn, TimeoutStatus(t.state.active[txn], now), TimeoutCause(t.state.active[txn], now), esns)
  }

  function TimeOuts(t: Trace, txns: seq<string>, now: nat, esns: seq<string>): Trace {
    if txns == [] then t else TimeOut(TimeOuts(t, Front(txns), now, esns), Last(txns), now, esns)
  }

  function Abandon(t: Trace, txns: seq<string>, cause: Cause, esns: seq<string>): Trace {
    if txns == [] then t else
      CloseTransaction(Abandon(t, Front(txns), cause, esns), Last(txns), Some(Abandoned), cause, esns)
  }

  // ----- the handlers -----

  function HandleStart(t: Trace, now: nat, abandoned: seq<string>, esns: seq<string>): Trace {
    var closed := Abandon(t, abandoned, StartSeen, esns);
    closed.(state := closed.state.(pendingStart := Some(now)))
  }

  function DropPendingStart(t: Trace): Trace {
    t.(state := t.state.(pendingStart := None))
  }

  /** The latest transaction ends: completed when its start triad was confirmed, else abandoned. */
  function EndLatest(t: Trace, latest: string, e: Event, esns: seq<string>): Trace {
    if latest !in t.state.active || t.state.active[latest].ns91Sent then t else
      var tx := t.state.active[latest];
      if tx.individualNs92Allowed then
        var cmd := StringAt(e, "CMD");
        var done := tx.(isComplete := true, endCmd := if cmd.Some? then cmd.value else tx.endCmd);
        CloseTransaction(t.(state := t.state.(active := t.state.active[latest := done])),
                         latest, None, EndSeenLatest, esns)
      else
        CloseTransaction(t, latest, Some(Abandoned), EndSeenLatest, esns)
  }

  function HandleEnd(t: Trace, e: Event, choice: Dispatching, esns: seq<string>): Trace {
    if t.state.active == map[] then DropPendingStart(FlushGroups(t, choice.flushed, esns)) else
      EndLatest(DropPendingStart(Abandon(t, choice.abandoned, EndSeenOther, esns)), choice.latest, e, esns)
  }

  /** The transaction an event with key `txn` goes to, opened if need be. */
  function Target(s: State, txn: string, now: nat): Transaction {
    if txn in s.active then s.active[txn] else NewTransaction(s.registerIP, txn, now, s.pendingStart)
  }

  function HandleTransaction(t: Trace, txn: string, a: Arrival, esns: seq<string>): Trace {
    var before := Target(t.state, txn, a.clock.now);
    var after := Receive(before, a, esns);
    ReceiveContinues(before, a, esns);
    t.(state := t.state.(active := t.state.active[txn := after],
                         pendingStart := if txn in t.state.active then t.state.pendingStart else None),
       ns92 := t.ns92 + NewEtags(before, after))
  }

  /** The 30-second window of a time: seconds divided by 30. */
  function Window(time: nat): nat { time / SECOND / 30 }

  function GroupFor(s: State, key: nat, now: nat): Group {
    if key in s.groups then s.groups[key] else Group(s.registerIP, [], now, now, key, [])
  }

  function Collect(g: Group, a: Arrival): Group {
    g.(events := g.events + [a.event], lastActivity := a.clock.now, routed := g.routed + [a])
  }

  predicate GroupComplete(g: Group) {
    (exists e :: e in g.events && "metaData" in e) && (exists e :: e in g.events && "cartChangeTrail" in e)
  }

  function HandleUnknown(t: Trace, a: Arrival, esns: seq<string>): Trace {
    var key := Window(a.clock.now);
    var g := Collect(GroupFor(t.state, key, a.clock.now), a);
    var stored := t.(state := t.state.(groups := t.state.groups[key := g]));
    if GroupComplete(g) then FlushGroup(stored, key, esns) else stored
  }

  // ----- one event -----

  function Sweep(t: Trace, input: Input): Trace {
    TimeOuts(FlushGroups(t, input.choice.staleGroups, input.esns),
             input.choice.timedOut, input.clock.transactionSweep, input.esns)
  }

  function Arrive(t: Trace, a: Arrival): Trace {
    t.(state := t.state.(lastActivity := a.clock.now), log := t.log + [a])
  }

  /** The key of the transaction a non-demarcator event belongs to, if any. */
  function Route(s: State, e: Event, latest: string): Option<string> {
    if TransactionSeqOf(e) != "" then Some(TransactionSeqOf(e))
    else if s.active != map[] then Some(latest)
    else None
  }

  function DispatchOrdinary(t: Trace, a: Arrival, choice: Dispatching, esns: seq<string>): Trace {
    var route := Route(t.state, a.event, choice.latest);
    if route.Some? then HandleTransaction(t, route.value, a, esns) else HandleUnknown(t, a, esns)
  }

  function Dispatch(t: Trace, a: Arrival, choice: Dispatching, esns: seq<string>): Trace {
    if IsStartDemarcator(a.event) then HandleStart(t, a.clock.now, choice.abandoned, esns)
    else if IsEndDemarcator(a.event) then HandleEnd(t, a.event, choice, esns)
    else DispatchOrdinary(t, a, choice, esns)
  }

  /** The log entry the next event will be. */
  function NextArrival(t: Trace, input: Input): Arrival {
    Arrival(|t.log|, input.event, input.clock)
  }

  /** The trace the event is dispatched on. */
  function Prepare(t: Trace, input: Input): Trace {
    Arrive(Sweep(t, input), NextArrival(t, input))
  }

  function Step(t: Trace, input: Input): Trace {
    Dispatch(Prepare(t, input), NextArrival(t, input), input.choice.dispatch, input.esns)
  }

  // ----- which iteration orders are possible -----

  predicate IsLatest(active: map<string, Transaction>, latest: string) {
    latest in active && forall k :: k in active ==> active[k].lastActivity <= active[latest].lastActivity
  }

  function StaleGroups(s: State, now: nat): set<nat> {
    set k | k in s.groups && s.groups[k].lastActivity + 60 * SECOND < now
  }

  function TimedOuts(s: State, now: nat): set<string> {
    set k | k in s.active && TimedOut(s.active[k], now)
  }

  /** Transactions other than the latest that an end demarcator abandons. */
  function Others(s: State, latest: string): set<string> {
    set k | k in s.active && k != latest && !s.active[k].isComplete
  }

  ghost predicate ValidDispatch(s: State, e: Event, choice: Dispatching) {
    if IsStartDemarcator(e) then Enumerates(choice.abandoned, s.active.Keys)
    else if IsEndDemarcator(e) then
      if s.active == map[] then Enumerates(choice.flushed, s.groups.Keys)
      else IsLatest(s.active, choice.latest) && Enumerates(choice.abandoned, Others(s, choice.latest))
    else
      TransactionSeqOf(e) == "" && s.active != map[] ==> IsLatest(s.active, choice.latest)
  }

  ghost predicate ValidChoice(t: Trace, input: Input) {
    Enumerates(input.choice.staleGroups, StaleGroups(t.state, input.clock.unknownSweep)) &&
    Enumerates(input.choice.timedOut, TimedOuts(t.state, input.clock.transactionSweep)) &&
    ValidDispatch(Prepare(t, input).state, input.event, input.choice.dispatch)
  }

  // ----- runs -----

  function Fresh(ip: string, created: nat): Trace {
    Trace(State(ip, map[], map[], None, created), [], [], [])
  }

  function Run(start: Trace, inputs: seq<Input>): Trace {
    if inputs == [] then start else Step(Run(start, Front(inputs)), Last(inputs))
  }

  ghost predicate ValidRun(start: Trace, inputs: seq<Input>) {
    inputs == [] ||
    (ValidRun(start, Front(inputs)) && ValidChoice(Run(start, Front(inputs)), Last(inputs)))
  }

  lemma RunSnoc(start: Trace, inputs: seq<Input>, input: Input)
    requires ValidRun(start, inputs) && ValidChoice(Run(start, inputs), input)
    ensures ValidRun(start, inputs + [input]) && Run(start, inputs + [input]) == Step(Run(start, inputs), input)
  {
    hide ValidChoice, Step;
    assert Front(inputs + [input]) == inputs && Last(inputs + [input]) == input;
  }

  /** The clock readings of a run never go back. The arrival reading is made
      before the register is locked, so it may precede the event before. */
  ghost predicate Monotone(inputs: seq<Input>) {
    (forall i :: 0 <= i < |inputs| ==> inputs[i].clock.Ordered()) &&
    forall i :: 0 < i < |inputs| ==> inputs[i - 1].clock.cartEnd <= inputs[i].clock.unknownSweep
  }

  /** Five readings at once. */
  function At(time: nat): Clock {
    Clock(time, time, time, time, time)
  }
}
