/** What one event does to a register, in terms of the raw fields of the event and of
    the state before it: who is closed and how, where the event goes, what stays. */
module Effects {
  import opened Collections
  import opened Payload
  import opened Register
  import opened Sweeps
  import opened Transactions
  import opened Invariants
  import opened Reading

  // ----- before the event is looked at -----

  predicate CartOver(tx: Transaction, s: nat) {
    tx.cartEnd.Some? && tx.cartEnd.value + 10_000_000_000 < s
  }

  predicate Over(tx: Transaction, s: nat) {
    CartOver(tx, s) || tx.lastActivity + 60_000_000_000 < s
  }

  /** The transaction is active and not over at the sweep. */
  predicate Survives(t: Trace, input: Input, k: string) {
    k in t.state.active && !Over(t.state.active[k], input.clock.transactionSweep)
  }

  predicate GroupSurvives(t: Trace, input: Input, k: nat) {
    k in t.state.groups && !(t.state.groups[k].lastActivity + 60_000_000_000 < input.clock.unknownSweep)
  }

  ghost predicate AnySurvives(t: Trace, input: Input) {
    exists k :: Survives(t, input, k)
  }

  /** A surviving transaction with no more recent one beside it. */
  ghost predicate IsNewest(t: Trace, input: Input, k: string) {
    Survives(t, input, k) &&
    forall j :: Survives(t, input, j) ==> t.state.active[j].lastActivity <= t.state.active[k].lastActivity
  }

  /** The event as the log records it. */
  function ArrivalOf(t: Trace, input: Input): Arrival {
    Arrival(|t.log|, input.event, input.clock)
  }

  ghost predicate Swept(t: Trace, input: Input, p: Trace) {
    (forall k :: k in p.state.active <==> Survives(t, input, k)) &&
    (forall k :: k in p.state.active ==> p.state.active[k] == t.state.active[k]) &&
    (forall k :: k in p.state.groups <==> GroupSurvives(t, input, k)) &&
    (forall k :: k in p.state.groups ==> p.state.groups[k] == t.state.groups[k]) &&
    p.state.pendingStart == t.state.pendingStart && p.state.registerIP == t.state.registerIP &&
    p.state.lastActivity == input.clock.now && p.log == t.log + [ArrivalOf(t, input)]
  }

  lemma AfterSweep(t: Trace, input: Input)
    requires Inv(t) && ValidChoice(t, input)
    ensures Swept(t, input, Prepare(t, input)) && Inv(Prepare(t, input))
    ensures NextArrival(t, input) == ArrivalOf(t, input)
  {
    hide Sweep, Inv, ValidChoice, Swept, Over;
    SweepInv(t, input);
    ArriveInv(Sweep(t, input), NextArrival(t, input));
    hide Prepare, Arrive;
    PrepareState(t, input);
    OrdersAreDue(t, input);
    SweptFrom(t, input, Prepare(t, input));
  }

  lemma SweptFrom(t: Trace, input: Input, p: Trace)
    requires p.state.active == t.state.active - Elements(input.choice.timedOut)
    requires p.state.groups == t.state.groups - Elements(input.choice.staleGroups)
    requires p.state.pendingStart == t.state.pendingStart && p.state.registerIP == t.state.registerIP
    requires p.state.lastActivity == input.clock.now && p.log == t.log + [ArrivalOf(t, input)]
    requires forall k :: k in t.state.active ==>
               (k in Elements(input.choice.timedOut) <==> Over(t.state.active[k], input.clock.transactionSweep))
    requires forall k :: k in t.state.groups ==>
               (k in Elements(input.choice.staleGroups) <==>
                  t.state.groups[k].lastActivity + 60_000_000_000 < input.clock.unknownSweep)
    ensures Swept(t, input, p)
  {
    hide Over, Elements;
  }

  lemma PrepareState(t: Trace, input: Input)
    ensures var s := Prepare(t, input).state;
            s.active == t.state.active - Elements(input.choice.timedOut) &&
            s.groups == t.state.groups - Elements(input.choice.staleGroups) &&
            s.pendingStart == t.state.pendingStart && s.registerIP == t.state.registerIP &&
            s.lastActivity == input.clock.now
    ensures Prepare(t, input).log == t.log + [ArrivalOf(t, input)]
  {
    var flushed := FlushGroups(t, input.choice.staleGroups, input.esns);
    FlushGroupsState(t, input.choice.staleGroups, input.esns);
    TimeOutsState(flushed, input.choice.timedOut, input.clock.transactionSweep, input.esns);
    hide FlushGroups, TimeOuts, Elements;
  }

  lemma OrdersAreDue(t: Trace, input: Input)
    requires Inv(t) && ValidChoice(t, input)
    ensures forall k :: k in t.state.active ==>
              (k in Elements(input.choice.timedOut) <==> Over(t.state.active[k], input.clock.transactionSweep))
    ensures forall k :: k in t.state.groups ==>
              (k in Elements(input.choice.staleGroups) <==>
                 t.state.groups[k].lastActivity + 60_000_000_000 < input.clock.unknownSweep)
  {
    forall k | k in t.state.active ensures !t.state.active[k].isComplete {
      ActiveIncomplete(t, k);
    }
    hide ValidDispatch, Inv;
  }

  lemma ActiveIncomplete(t: Trace, k: string)
    requires Inv(t) && k in t.state.active
    ensures !t.state.active[k].isComplete && !t.state.active[k].ns91Sent
    ensures t.state.active[k].individualNs92Allowed == t.state.active[k].hasStartTriad
  {
    hide StreamSound, TimesSound, NumbersSound, GroupsOk, ClosingsOk, StartsOk;
    hide Stream, TriadAt;
    assert TransactionOk(t.state.active[k], k, t.state.registerIP);
    AllowedIsTriad(t.state.active[k]);
  }

  lemma AllowedIsTriad(tx: Transaction)
    requires Sound(tx)
    ensures tx.individualNs92Allowed == tx.hasStartTriad
  {
    hide Stream, TriadAt;
  }

  // ----- where an event goes -----

  ghost predicate GroupsKept(t: Trace, input: Input, u: Trace) {
    (forall k :: k in u.state.groups <==> GroupSurvives(t, input, k)) &&
    forall k :: k in u.state.groups ==> u.state.groups[k] == t.state.groups[k]
  }

  /** The offers so far, and more, all to the cameras of this event. */
  ghost predicate OffersGrow(before: seq<Offer>, after: seq<Offer>, esns: seq<string>) {
    before <= after && forall i :: |before| <= i < |after| ==> after[i].esns == esns
  }

  /** The event went to transaction `k`, opened with the pending start if need be;
      nothing else changed. */
  ghost predicate ToTransaction(t: Trace, input: Input, u: Trace, k: string) {
    k in u.state.active && u.state.active[k].transactionSeq == k &&
    u.state.active[k].routed ==
      (if Survives(t, input, k) then t.state.active[k].routed else []) + [ArrivalOf(t, input)] &&
    OffersGrow(if Survives(t, input, k) then t.state.active[k].offers else [], u.state.active[k].offers, input.esns) &&
    u.state.active[k].cmd == (if Survives(t, input, k) then t.state.active[k].cmd else t.state.pendingStart) &&
    u.state.pendingStart == (if Survives(t, input, k) then t.state.pendingStart else None) &&
    (forall j :: j != k ==> (j in u.state.active <==> Survives(t, input, j))) &&
    (forall j :: j != k && j in u.state.active ==> u.state.active[j] == t.state.active[j]) &&
    GroupsKept(t, input, u)
  }

  /** The group's events before, and the event. */
  function Gathered(t: Trace, input: Input, w: nat): seq<Arrival> {
    (if GroupSurvives(t, input, w) then t.state.groups[w].routed else []) + [ArrivalOf(t, input)]
  }

  /** A metaData and a cart event are among them. */
  ghost predicate CompletesGroup(routed: seq<Arrival>) {
    (exists a :: a in routed && "metaData" in a.event) && exists a :: a in routed && "cartChangeTrail" in a.event
  }

  /** The event went to the group of the 30 seconds it came in, which was sent and
      removed if that completed it; nothing else changed. */
  ghost predicate ToGroup(t: Trace, input: Input, u: Trace, w: nat) {
    w * 30_000_000_000 <= input.clock.now < (w + 1) * 30_000_000_000 &&
    u.state.active == map[] && u.state.pendingStart == t.state.pendingStart &&
    (forall k :: k != w ==> (k in u.state.groups <==> GroupSurvives(t, input, k))) &&
    (forall k :: k != w && k in u.state.groups ==> u.state.groups[k] == t.state.groups[k]) &&
    if CompletesGroup(Gathered(t, input, w)) then
      w !in u.state.groups && u.closings != [] && Last(u.closings).requested == Some(Unknown) &&
      Last(u.closings).transaction.routed == Gathered(t, input, w)
    else w in u.state.groups && u.state.groups[w].routed == Gathered(t, input, w)
  }

  ghost predicate CarriesNone(e: Event) {
    forall n :: !CarriesNumber(e, n)
  }

  lemma RouteRead(e: Event)
    ensures TransactionSeqOf(e) != "" ==> CarriesNumber(e, TransactionSeqOf(e))
    ensures TransactionSeqOf(e) == "" <==> CarriesNone(e)
    ensures forall n :: CarriesNumber(e, n) ==> n == TransactionSeqOf(e)
  {
    hide TransactionSeqOf;
    NumberRead(e, TransactionSeqOf(e));
    forall n | CarriesNumber(e, n) ensures n == TransactionSeqOf(e) {
      NumberRead(e, n);
    }
  }

  /** With a number the event went to the transaction of that number; without one to a
      newest surviving transaction, or to the group of its window when nothing is
      active. */
  ghost predicate Placed(t: Trace, input: Input, u: Trace) {
    (forall n :: CarriesNumber(input.event, n) ==> ToTransaction(t, input, u, n)) &&
    (CarriesNone(input.event) && AnySurvives(t, input) ==>
       exists k :: IsNewest(t, input, k) && ToTransaction(t, input, u, k)) &&
    (CarriesNone(input.event) && !AnySurvives(t, input) ==> exists w: nat :: ToGroup(t, input, u, w))
  }

  /** So it is with every event that commands no start or end. */
  lemma OrdinaryEffect(t: Trace, input: Input)
    requires Inv(t) && ValidChoice(t, input) && !Demarcates(input.event)
    ensures Placed(t, input, Step(t, input))
  {
    var e, p, u := input.event, Prepare(t, input), Step(t, input);
    var a, latest := ArrivalOf(t, input), input.choice.dispatch.latest;
    AfterSweep(t, input);
    Readings(e);
    RouteRead(e);
    DispatchIs(t, input);
    hide Step, Prepare, Inv, IsDemarcator, TransactionSeqOf, CarriesNumber, Survives, GroupSurvives;
    if TransactionSeqOf(e) != "" {
      HandleTransactionEffect(t, input, p, u, TransactionSeqOf(e));
    } else if p.state.active != map[] {
      LatestIsNewest(t, input, p, latest);
      HandleTransactionEffect(t, input, p, u, latest);
      assert IsNewest(t, input, latest);
    } else {
      HandleUnknownEffect(t, input, p, u);
    }
  }

  lemma DispatchIs(t: Trace, input: Input)
    requires ValidChoice(t, input) && !IsDemarcator(input.event)
    ensures var p, a, latest := Prepare(t, input), NextArrival(t, input), input.choice.dispatch.latest;
            Step(t, input) ==
            if TransactionSeqOf(input.event) != ""
            then HandleTransaction(p, TransactionSeqOf(input.event), a, input.esns)
            else if p.state.active != map[] then HandleTransaction(p, latest, a, input.esns)
            else HandleUnknown(p, a, input.esns)
    ensures TransactionSeqOf(input.event) == "" && Prepare(t, input).state.active != map[] ==>
              IsLatest(Prepare(t, input).state.active, input.choice.dispatch.latest)
  {
    hide Prepare, HandleTransaction, HandleUnknown, HandleStart, HandleEnd, TransactionSeqOf;
  }

  lemma LatestIsNewest(t: Trace, input: Input, p: Trace, latest: string)
    requires Swept(t, input, p) && IsLatest(p.state.active, latest)
    ensures IsNewest(t, input, latest) && AnySurvives(t, input)
  {
    hide Survives, GroupSurvives;
  }

  lemma HandleTransactionEffect(t: Trace, input: Input, p: Trace, u: Trace, k: string)
    requires Swept(t, input, p) && Inv(p) && u == HandleTransaction(p, k, ArrivalOf(t, input), input.esns)
    ensures ToTransaction(t, input, u, k)
  {
    hide Receive, NewEtags, Continues, Inv, Survives, GroupSurvives, NewTransaction, Swept, OffersGrow;
    var before := Target(p.state, k, input.clock.now);
    var after := Receive(before, ArrivalOf(t, input), input.esns);
    ReceivedFields(before, ArrivalOf(t, input), input.esns);
    TargetFields(p, k, input.clock.now);
    assert u.state.active == p.state.active[k := after] && u.state.groups == p.state.groups;
    assert u.state.pendingStart == if k in p.state.active then p.state.pendingStart else None;
    hide HandleTransaction, Target;
    ToTransactionFrom(t, input, p, u, k, after);
  }

  lemma TargetFields(p: Trace, k: string, now: nat)
    requires Inv(p)
    ensures var tx := Target(p.state, k, now);
            tx.transactionSeq == k &&
            tx.cmd == (if k in p.state.active then p.state.active[k].cmd else p.state.pendingStart) &&
            tx.routed == (if k in p.state.active then p.state.active[k].routed else []) &&
            tx.offers == if k in p.state.active then p.state.active[k].offers else []
  {
    hide Inv;
    if k in p.state.active {
      KeyOf(p, k);
    }
  }

  lemma ToTransactionFrom(t: Trace, input: Input, p: Trace, u: Trace, k: string, after: Transaction)
    requires Swept(t, input, p)
    requires u.state.active == p.state.active[k := after] && u.state.groups == p.state.groups
    requires u.state.pendingStart == if k in p.state.active then p.state.pendingStart else None
    requires after.transactionSeq == k
    requires after.cmd == if k in p.state.active then p.state.active[k].cmd else p.state.pendingStart
    requires after.routed ==
             (if k in p.state.active then p.state.active[k].routed else []) + [ArrivalOf(t, input)]
    requires OffersGrow(if k in p.state.active then p.state.active[k].offers else [], after.offers, input.esns)
    ensures ToTransaction(t, input, u, k)
  {
    hide Survives, GroupSurvives, ArrivalOf, OffersGrow;
  }

  lemma ReceivedFields(tx: Transaction, a: Arrival, esns: seq<string>)
    ensures var r := Receive(tx, a, esns);
            r.transactionSeq == tx.transactionSeq && r.cmd == tx.cmd && r.routed == tx.routed + [a]
    ensures OffersGrow(tx.offers, Receive(tx, a, esns).offers, esns)
  {
    ReceiveKeepsFields(tx, a, esns);
    ReceiveOffers(tx, a, esns);
    hide Receive, IsCartEnd, OffersGrow;
  }

  lemma {:induction false} SendEachOffers(tx: Transaction, events: seq<Event>, esns: seq<string>)
    ensures OffersGrow(tx.offers, SendEach(tx, events, esns).offers, esns)
  {
    hide Continues, EventPos;
    if events == [] {
    } else {
      SendEachOffers(tx, Front(events), esns);
    }
  }

  lemma ReceiveOffers(tx: Transaction, a: Arrival, esns: seq<string>)
    ensures OffersGrow(tx.offers, Receive(tx, a, esns).offers, esns)
  {
    AbsorbOffersNothing(tx, a);
    ConfirmOffers(Absorb(tx, a), esns);
    hide Absorb, ConfirmTriad, Skipped, EventPos, Continues;
  }

  lemma ConfirmOffers(tx: Transaction, esns: seq<string>)
    ensures OffersGrow(tx.offers, ConfirmTriad(tx, esns).offers, esns)
  {
    hide Continues, StartPos, SendEach;
    if TriadReady(tx) {
      var ready := tx.(hasStartTriad := true, individualNs92Allowed := true);
      var started := SendNs92(ready, StartPos(tx.registerIP, tx.metaData, tx.transactionHeader), esns);
      SendEachOffers(started, tx.pending, esns);
    }
  }

  lemma KeyOf(p: Trace, k: string)
    requires Inv(p) && k in p.state.active
    ensures p.state.active[k].transactionSeq == k
  {
    hide Sound, GroupsOk, ClosingsOk, StartsOk;
  }

  lemma WindowIs(now: nat)
    ensures Window(now) * 30_000_000_000 <= now < (Window(now) + 1) * 30_000_000_000
  {
    assert now / SECOND * SECOND <= now < (now / SECOND + 1) * SECOND;
  }

  lemma HandleUnknownEffect(t: Trace, input: Input, p: Trace, u: Trace)
    requires Swept(t, input, p) && Inv(p) && p.state.active == map[]
    requires u == HandleUnknown(p, ArrivalOf(t, input), input.esns)
    ensures ToGroup(t, input, u, Window(input.clock.now))
  {
    hide Window, Inv, Survives, GroupSurvives, CompletesGroup, GroupComplete, Swept, Gathered;
    var w := Window(input.clock.now);
    WindowIs(input.clock.now);
    CompletedIs(t, input, p, w);
    CollectedEffect(t, input, p, u, w);
  }

  lemma CollectedEffect(t: Trace, input: Input, p: Trace, u: Trace, w: nat)
    requires Swept(t, input, p) && p.state.active == map[]
    requires w == Window(input.clock.now) && w * 30_000_000_000 <= input.clock.now < (w + 1) * 30_000_000_000
    requires u == HandleUnknown(p, ArrivalOf(t, input), input.esns)
    requires var g := Collect(GroupFor(p.state, w, input.clock.now), ArrivalOf(t, input));
             g.routed == Gathered(t, input, w) && (GroupComplete(g) <==> CompletesGroup(Gathered(t, input, w)))
    ensures ToGroup(t, input, u, w)
  {
    hide Window, Survives, GroupSurvives, CompletesGroup, GroupComplete, Gathered;
  }

  lemma CompletedIs(t: Trace, input: Input, p: Trace, w: nat)
    requires Swept(t, input, p) && Inv(p)
    ensures var g := Collect(GroupFor(p.state, w, input.clock.now), ArrivalOf(t, input));
            g.routed == Gathered(t, input, w) && (GroupComplete(g) <==> CompletesGroup(Gathered(t, input, w)))
  {
    hide Survives, GroupSurvives, ActiveOk, ClosingsOk, StartsOk;
    var g := Collect(GroupFor(p.state, w, input.clock.now), ArrivalOf(t, input));
    if w in p.state.groups {
      GroupEvents(p.state.groups[w], w, p.state.registerIP);
    }
    assert g.events == EventsOf(g.routed);
    hide GroupsOk;
    EventsComplete(g);
  }

  lemma GroupEvents(g: Group, key: nat, ip: string)
    requires GroupOk(g, key, ip)
    ensures g.events == EventsOf(g.routed)
  {
  }

  lemma EventsComplete(g: Group)
    requires g.events == EventsOf(g.routed)
    ensures GroupComplete(g) <==> CompletesGroup(g.routed)
  {
    forall a | a in g.routed ensures a.event in g.events {
      var i :| 0 <= i < |g.routed| && g.routed[i] == a;
      assert g.events[i] == a.event;
    }
    forall e | e in g.events ensures exists a :: a in g.routed && a.event == e {
      var i :| 0 <= i < |g.events| && g.events[i] == e;
      assert g.routed[i].event == e;
    }
  }

  // ----- demarcators -----

  /** A start leaves nothing active, every surviving group, and one pending start. */
  lemma StartEffect(t: Trace, input: Input)
    requires Inv(t) && ValidChoice(t, input) && Commands(input.event, "StartTransaction")
    ensures var u := Step(t, input);
            u.state.active == map[] && GroupsKept(t, input, u) && u.state.pendingStart == Some(input.clock.now)
  {
    var p, d := Prepare(t, input), input.choice.dispatch;
    AfterSweep(t, input);
    Readings(input.event);
    StepInv(t, input);
    AbandonState(p, d.abandoned, StartSeen, input.esns);
    hide Prepare, Inv, Abandon, IsStartDemarcator, Survives, GroupSurvives, ValidChoice;
  }

  /** An end leaves nothing active and no pending start; the surviving groups stay
      unless no transaction survived, in which case all are sent. */
  lemma EndEffect(t: Trace, input: Input)
    requires Inv(t) && ValidChoice(t, input) && Commands(input.event, "EndTransaction")
    ensures var u := Step(t, input);
            u.state.active == map[] && u.state.pendingStart == None &&
            if AnySurvives(t, input) then GroupsKept(t, input, u) else u.state.groups == map[]
  {
    hide Prepare, Inv, Survives, GroupSurvives, Step, HandleEnd, ValidChoice, Demarcates, IsStartDemarcator,
         IsEndDemarcator, IsCartEnd, EndsCart;
    var p, d := Prepare(t, input), input.choice.dispatch;
    AfterSweep(t, input);
    Readings(input.event);
    StepInv(t, input);
    EndStep(t, input);
    EndState(p, input.event, d, input.esns);
    assert p.state.active == map[] <==> !AnySurvives(t, input);
  }

  lemma EndStep(t: Trace, input: Input)
    requires ValidChoice(t, input) && IsEndDemarcator(input.event)
    ensures Step(t, input) == HandleEnd(Prepare(t, input), input.event, input.choice.dispatch, input.esns)
    ensures Prepare(t, input).state.active == map[] ==>
              Enumerates(input.choice.dispatch.flushed, Prepare(t, input).state.groups.Keys)
  {
    hide Prepare, HandleEnd, HandleStart, DispatchOrdinary, Enumerates;
  }

  lemma EndState(p: Trace, e: Event, d: Dispatching, esns: seq<string>)
    requires p.state.active == map[] ==> Enumerates(d.flushed, p.state.groups.Keys)
    ensures var s := HandleEnd(p, e, d, esns).state;
            s.pendingStart == None && if p.state.active == map[] then s.groups == map[] else s.groups == p.state.groups
  {
    hide StringAt, FlushGroups, Abandon;
    if p.state.active == map[] {
      FlushGroupsState(p, d.flushed, esns);
      assert p.state.groups - Elements(d.flushed) == map[];
    } else {
      AbandonState(p, d.abandoned, EndSeenOther, esns);
    }
  }

  // ----- who is closed, and how -----

  /** A group sent: one that was stale, one that an end found with nothing active, or
      the one the event completed. */
  ghost predicate GroupSent(t: Trace, input: Input, c: Closing) {
    c.cause == UnknownFlush && c.requested == Some(Unknown) &&
    c.transaction.transactionSeq == "" && c.transaction.offers == [] &&
    ((exists k :: k in t.state.groups && c.transaction.routed == t.state.groups[k].routed &&
                  (!GroupSurvives(t, input, k) ||
                   (Commands(input.event, "EndTransaction") && !AnySurvives(t, input)))) ||
     (!Demarcates(input.event) && !AnySurvives(t, input) &&
      exists w :: c.transaction.routed == Gathered(t, input, w) && CompletesGroup(Gathered(t, input, w))))
  }

  /** A transaction that was over at the sweep: good when its cart had ended. */
  ghost predicate TimeoutSent(t: Trace, input: Input, c: Closing) {
    exists k :: k in t.state.active && c.transaction == t.state.active[k] &&
                Over(t.state.active[k], input.clock.transactionSweep) &&
                if CartOver(t.state.active[k], input.clock.transactionSweep)
                then c.requested == None && c.cause == CartEndSilence
                else c.requested == Some(Abandoned) && c.cause == GeneralTimeout
  }

  /** A surviving transaction that the event abandoned. */
  ghost predicate AbandonSent(t: Trace, input: Input, c: Closing) {
    c.requested == Some(Abandoned) &&
    c.cause == (if Commands(input.event, "StartTransaction") then StartSeen else EndSeenOther) &&
    exists k :: Survives(t, input, k) && c.transaction == t.state.active[k]
  }

  /** The latest transaction, ended: complete when its triad was confirmed. */
  ghost predicate EndSent(t: Trace, input: Input, latest: string, c: Closing) {
    Survives(t, input, latest) && c.cause == EndSeenLatest &&
    var tx := t.state.active[latest];
    if tx.hasStartTriad
    then c.transaction == tx.(isComplete := true, endCmd := "EndTransaction") && c.requested == None
    else c.transaction == tx && c.requested == Some(Abandoned)
  }

  /** Every reason to send an NS91. A start abandons all survivors; an end abandons all
      but the latest, which it ends; no other event closes a survivor. */
  ghost predicate Sent(t: Trace, input: Input, latest: string, c: Closing) {
    c.esns == input.esns &&
    (GroupSent(t, input, c) || TimeoutSent(t, input, c) ||
     (Commands(input.event, "StartTransaction") && AbandonSent(t, input, c)) ||
     (Commands(input.event, "EndTransaction") &&
      if c.transaction.transactionSeq == latest then EndSent(t, input, latest, c) else AbandonSent(t, input, c)))
  }

  /** Whatever a step closes is closed for one of these reasons, and sent to the
      cameras of this event. */
  lemma ClosingsEffect(t: Trace, input: Input) returns (latest: string)
    requires Inv(t) && ValidChoice(t, input)
    ensures Commands(input.event, "EndTransaction") && AnySurvives(t, input) ==> IsNewest(t, input, latest)
    ensures t.closings <= Step(t, input).closings
    ensures forall i :: |t.closings| <= i < |Step(t, input).closings| ==>
              Sent(t, input, latest, Step(t, input).closings[i])
  {
    latest := input.choice.dispatch.latest;
    hide Step, Prepare, Inv, ValidChoice, Sent, Survives, GroupSurvives, DispatchMakes;
    AfterSweep(t, input);
    SweepMakes(t, input, latest);
    DispatchSends(t, input, latest);
    StepAdds(t, input, c => Sent(t, input, latest, c));
    EndLatestNewest(t, input);
  }

  lemma EndLatestNewest(t: Trace, input: Input)
    requires Inv(t) && ValidChoice(t, input) && Swept(t, input, Prepare(t, input))
    ensures Commands(input.event, "EndTransaction") && AnySurvives(t, input) ==>
              IsNewest(t, input, input.choice.dispatch.latest)
  {
    Readings(input.event);
    hide Prepare, Inv, Survives, GroupSurvives, Enumerates;
  }

  lemma SweepMakes(t: Trace, input: Input, latest: string)
    requires Inv(t) && ValidChoice(t, input)
    ensures forall k :: k in input.choice.staleGroups && k in t.state.groups ==>
              Sent(t, input, latest, FlushClosing(t.state.groups[k], input.esns))
    ensures forall k :: k in input.choice.timedOut && k in t.state.active ==>
              Sent(t, input, latest,
                   TimeoutClosing(t.state.active[k], input.clock.transactionSweep, input.esns))
  {
    hide Inv, ValidChoice, AnySurvives, Gathered, CompletesGroup, AbandonSent, EndSent;
    OrdersAreDue(t, input);
    forall k | k in input.choice.staleGroups && k in t.state.groups
      ensures Sent(t, input, latest, FlushClosing(t.state.groups[k], input.esns))
    {
      assert k in Elements(input.choice.staleGroups) && !GroupSurvives(t, input, k);
      hide Over, TimeoutSent;
      assert GroupSent(t, input, FlushClosing(t.state.groups[k], input.esns));
    }
    forall k | k in input.choice.timedOut && k in t.state.active
      ensures Sent(t, input, latest, TimeoutClosing(t.state.active[k], input.clock.transactionSweep, input.esns))
    {
      hide GroupSent;
      assert k in Elements(input.choice.timedOut);
      assert TimeoutSent(t, input, TimeoutClosing(t.state.active[k], input.clock.transactionSweep, input.esns));
    }
  }

  lemma AbandonedSent(t: Trace, input: Input, p: Trace, latest: string, k: string, cause: Cause)
    requires Swept(t, input, p) && Inv(p) && k in p.state.active
    requires Commands(input.event, "StartTransaction") || (Commands(input.event, "EndTransaction") && k != latest)
    requires cause == if Commands(input.event, "StartTransaction") then StartSeen else EndSeenOther
    ensures Sent(t, input, latest, AbandonClosing(p.state.active[k], cause, input.esns))
  {
    KeyOf(p, k);
    hide Inv, Survives, GroupSent, TimeoutSent, EndSent;
    assert AbandonSent(t, input, AbandonClosing(p.state.active[k], cause, input.esns));
  }

  lemma EndedSent(t: Trace, input: Input, p: Trace, latest: string)
    requires Swept(t, input, p) && Inv(p) && latest in p.state.active && Commands(input.event, "EndTransaction")
    ensures Sent(t, input, latest, LatestClosing(p.state.active[latest], input.event, input.esns))
  {
    KeyOf(p, latest);
    ActiveIncomplete(p, latest);
    assert StringAt(input.event, "CMD") == Some("EndTransaction");
    hide Inv, Survives, GroupSent, TimeoutSent, AbandonSent, StringAt;
    assert EndSent(t, input, latest, LatestClosing(p.state.active[latest], input.event, input.esns));
  }

  lemma FlushedSent(t: Trace, input: Input, p: Trace, latest: string, k: nat)
    requires Swept(t, input, p) && p.state.active == map[] && k in p.state.groups
    requires Commands(input.event, "EndTransaction")
    ensures Sent(t, input, latest, FlushClosing(p.state.groups[k], input.esns))
  {
    assert !AnySurvives(t, input);
    assert GroupSurvives(t, input, k);
    hide Survives, TimeoutSent, AbandonSent, EndSent, GroupSurvives;
    assert GroupSent(t, input, FlushClosing(p.state.groups[k], input.esns));
  }

  lemma CompletedSent(t: Trace, input: Input, p: Trace, latest: string)
    requires Swept(t, input, p) && Inv(p) && p.state.active == map[] && !Demarcates(input.event)
    requires GroupComplete(CompletedGroup(p.state, ArrivalOf(t, input)))
    ensures Sent(t, input, latest, FlushClosing(CompletedGroup(p.state, ArrivalOf(t, input)), input.esns))
  {
    var w := Window(input.clock.now);
    CompletedIs(t, input, p, w);
    assert !AnySurvives(t, input);
    hide Survives, TimeoutSent, AbandonSent, EndSent, GroupSurvives, Inv, CompletesGroup, Gathered, GroupComplete,
         Demarcates, Window;
    assert GroupSent(t, input, FlushClosing(CompletedGroup(p.state, ArrivalOf(t, input)), input.esns));
  }

  lemma DispatchSends(t: Trace, input: Input, latest: string)
    requires Inv(t) && ValidChoice(t, input) && latest == input.choice.dispatch.latest
    requires Swept(t, input, Prepare(t, input)) && Inv(Prepare(t, input))
    ensures DispatchMakes(Prepare(t, input).state, NextArrival(t, input), input.choice.dispatch, input.esns,
                          c => Sent(t, input, latest, c))
  {
    var p, d := Prepare(t, input), input.choice.dispatch;
    Readings(input.event);
    if IsEndDemarcator(input.event) && p.state.active != map[] {
      DispatchOrders(t, input);
    }
    hide Prepare, Inv, ValidChoice, Sent, Swept, Others, Enumerates, GroupComplete, CompletedGroup, AbandonClosing,
         LatestClosing, FlushClosing, IsStartDemarcator, IsEndDemarcator;
    forall k, cause | k in p.state.active && (IsStartDemarcator(input.event) ||
                                              (IsEndDemarcator(input.event) && k != latest)) &&
                       cause == if IsStartDemarcator(input.event) then StartSeen else EndSeenOther
      ensures Sent(t, input, latest, AbandonClosing(p.state.active[k], cause, input.esns))
    {
      AbandonedSent(t, input, p, latest, k, cause);
    }
    if IsEndDemarcator(input.event) {
      if latest in p.state.active {
        EndedSent(t, input, p, latest);
      }
      if p.state.active == map[] {
        forall k | k in p.state.groups ensures Sent(t, input, latest, FlushClosing(p.state.groups[k], input.esns)) {
          FlushedSent(t, input, p, latest, k);
        }
      }
    } else if !IsStartDemarcator(input.event) && Route(p.state, input.event, latest).None? &&
              GroupComplete(CompletedGroup(p.state, NextArrival(t, input))) {
      CompletedSent(t, input, p, latest);
    }
  }

  lemma DispatchOrders(t: Trace, input: Input)
    requires ValidChoice(t, input) && IsEndDemarcator(input.event) && Prepare(t, input).state.active != map[]
    ensures forall k :: k in input.choice.dispatch.abandoned ==> k != input.choice.dispatch.latest
  {
    hide Prepare;
  }
}
