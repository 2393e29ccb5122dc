/** The state machine object: the register events of every IP drive its state,
    and its two queues record everything offered. Every method is proved against
    the step function of module Register. */
module StateMachine {
  import opened Collections
  import opened Payload
  import opened Register
  import opened Aggregation
  import opened Routing
  import opened Sweeps
  import opened Interleaving

  class POSTransactionState {
    var transactionSeq: string
    var registerIP: string
    var startedAt: nat
    var lastActivity: nat
    var isComplete: bool
    var ns91Sent: bool
    var hasStartTriad: bool
    var individualNs92Allowed: bool
    var cartEnd: Option<nat>
    var cmd: Option<nat>
    var metaData: Option<Event>
    var transactionHeader: Option<Event>
    var endCmd: string
    var otherEvents: seq<Event>
    var pending: seq<Event>
    var seqCounter: Uint16
    ghost var routed: seq<Arrival>
    ghost var offers: seq<Offer>

    ghost function View(): Transaction
      reads this
    {
      Transaction(transactionSeq, registerIP, startedAt, lastActivity, isComplete, ns91Sent, hasStartTriad,
                  individualNs92Allowed, cartEnd, cmd, metaData, transactionHeader, endCmd, otherEvents,
                  pending, seqCounter, routed, offers)
    }

    lemma Flags()
      ensures View().isComplete == isComplete && View().ns91Sent == ns91Sent
      ensures View().individualNs92Allowed == individualNs92Allowed && View().registerIP == registerIP
    {
    }

    constructor (registerIP: string, transactionSeq: string, now: nat, cmd: Option<nat>)
      ensures View() == NewTransaction(registerIP, transactionSeq, now, cmd)
    {
      this.transactionSeq, this.registerIP := transactionSeq, registerIP;
      startedAt, lastActivity := now, now;
      isComplete, ns91Sent, hasStartTriad, individualNs92Allowed := false, false, false, false;
      cartEnd, this.cmd, metaData, transactionHeader, endCmd := None, cmd, None, None, "";
      otherEvents, pending, seqCounter := [], [], 1;
      routed, offers := [], [];
    }

    /** The stand-in for an unknown group. */
    constructor ForGroup(group: UnknownEventGroup)
      ensures View() == GroupTransaction(group.View())
    {
      transactionSeq, registerIP := "", group.registerIP;
      startedAt, lastActivity := 0, 0;
      isComplete, ns91Sent, hasStartTriad, individualNs92Allowed := false, false, false, false;
      cartEnd, cmd, metaData, transactionHeader, endCmd := None, None, None, None, "";
      otherEvents, pending, seqCounter := group.events, [], 1;
      routed, offers := group.routed, [];
    }
  }

  class UnknownEventGroup {
    var registerIP: string
    var events: seq<Event>
    var firstSeen: nat
    var lastActivity: nat
    var windowKey: nat
    ghost var routed: seq<Arrival>

    ghost function View(): Group
      reads this
    {
      Group(registerIP, events, firstSeen, lastActivity, windowKey, routed)
    }

    lemma Identity()
      ensures View().registerIP == registerIP
    {
    }

    constructor (registerIP: string, now: nat, windowKey: nat)
      ensures View() == Group(registerIP, [], now, now, windowKey, [])
    {
      this.registerIP, events, firstSeen, lastActivity, this.windowKey := registerIP, [], now, now, windowKey;
      routed := [];
    }
  }

  class IPState {
    const registerIP: string
    var activeTransactions: map<string, POSTransactionState>
    var unknownEventGroups: map<nat, UnknownEventGroup>
    var pendingStart: Option<nat>
    var lastActivity: nat
    ghost var log: seq<Arrival>
    ghost var closings: seq<Closing>
    ghost var ns92: seq<Etag>

    /** Different keys hold different objects, all of this register. */
    ghost predicate Valid()
      reads this`activeTransactions, this`unknownEventGroups, activeTransactions.Values, unknownEventGroups.Values
    {
      (forall j, k :: j in activeTransactions && k in activeTransactions && j != k ==>
         activeTransactions[j] != activeTransactions[k]) &&
      (forall j, k :: j in unknownEventGroups && k in unknownEventGroups && j != k ==>
         unknownEventGroups[j] != unknownEventGroups[k]) &&
      (forall k :: k in activeTransactions ==> k != "" && activeTransactions[k].registerIP == registerIP) &&
      (forall k :: k in unknownEventGroups ==> unknownEventGroups[k].registerIP == registerIP)
    }

    ghost function ActiveView(): map<string, Transaction>
      reads this`activeTransactions, activeTransactions.Values
    {
      map k | k in activeTransactions :: activeTransactions[k].View()
    }

    ghost function GroupsView(): map<nat, Group>
      reads this`unknownEventGroups, unknownEventGroups.Values
    {
      map k | k in unknownEventGroups :: unknownEventGroups[k].View()
    }

    ghost function StateView(): State
      reads this`activeTransactions, this`unknownEventGroups, this`pendingStart, this`lastActivity
      reads activeTransactions.Values, unknownEventGroups.Values
    {
      State(registerIP, ActiveView(), GroupsView(), pendingStart, lastActivity)
    }

    ghost function View(): Trace
      reads this`activeTransactions, this`unknownEventGroups, this`pendingStart, this`lastActivity
      reads this`log, this`closings, this`ns92, activeTransactions.Values, unknownEventGroups.Values
    {
      Trace(StateView(), log, closings, ns92)
    }

    /** The view, key by key. */
    lemma ViewsAgree()
      ensures View().state.active.Keys == activeTransactions.Keys
      ensures View().state.groups.Keys == unknownEventGroups.Keys
      ensures forall k :: k in activeTransactions ==> View().state.active[k] == activeTransactions[k].View()
      ensures forall k :: k in unknownEventGroups ==> View().state.groups[k] == unknownEventGroups[k].View()
      ensures View().state.registerIP == registerIP && View().state.pendingStart == pendingStart
      ensures View().log == log && View().closings == closings && View().ns92 == ns92
    {
    }

    /** Only the object at key `k` changed. */
    twostate lemma ActiveTouched(k: string)
      requires old(Valid()) && activeTransactions == old(activeTransactions) && k in activeTransactions
      requires activeTransactions[k].registerIP == registerIP
      requires unknownEventGroups == old(unknownEventGroups) && old(allocated(this))
      requires forall j :: j in activeTransactions && j != k ==> unchanged(activeTransactions[j])
      requires forall j :: j in unknownEventGroups ==> unchanged(unknownEventGroups[j])
      ensures Valid()
      ensures ActiveView() == old(ActiveView())[k := activeTransactions[k].View()]
      ensures GroupsView() == old(GroupsView())
    {
      hide POSTransactionState.View, UnknownEventGroup.View;
      assert forall j :: j in activeTransactions && j != k ==>
               activeTransactions[j].View() == old(activeTransactions[j].View());
    }

    twostate lemma GroupTouched(k: nat)
      requires old(Valid()) && unknownEventGroups == old(unknownEventGroups) && k in unknownEventGroups
      requires unknownEventGroups[k].registerIP == registerIP
      requires activeTransactions == old(activeTransactions) && old(allocated(this))
      requires forall j :: j in unknownEventGroups && j != k ==> unchanged(unknownEventGroups[j])
      requires forall j :: j in activeTransactions ==> unchanged(activeTransactions[j])
      ensures Valid()
      ensures GroupsView() == old(GroupsView())[k := unknownEventGroups[k].View()]
      ensures ActiveView() == old(ActiveView())
    {
      hide POSTransactionState.View, UnknownEventGroup.View;
      assert forall j :: j in unknownEventGroups && j != k ==>
               unknownEventGroups[j].View() == old(unknownEventGroups[j].View());
    }

    constructor (registerIP: string, created: nat)
      ensures Valid() && View() == Fresh(registerIP, created)
      ensures this.registerIP == registerIP && activeTransactions == map[] && unknownEventGroups == map[]
    {
      this.registerIP := registerIP;
      activeTransactions, unknownEventGroups, pendingStart, lastActivity := map[], map[], None, created;
      log, closings, ns92 := [], [], [];
    }
  }

  class IPBasedStateMachine {
    var ipStates: map<string, IPState>
    var ns91Queue: seq<Etag>
    var ns92Queue: seq<Etag>
    const routes: EsnTable
    ghost var received: seq<Message>

    constructor ()
      ensures Valid() && received == []
      ensures ipStates == map[] && ns91Queue == [] && ns92Queue == []
      ensures fresh(routes) && routes.ipToEsns == map[] && routes.esn == DEFAULT_ESN
    {
      ipStates, ns91Queue, ns92Queue, received := map[], [], [], [];
      routes := new EsnTable();
    }

    ghost function Fanout(ip: string): seq<string>
      reads routes
    {
      Resolve(routes.ipToEsns, routes.esn, ip)
    }

    // ----- sending -----

    /** The fan-out loop of sendToNS92: every camera gets the next number. */
    method SendToEachEsn(pos: Event, tx: POSTransactionState, esns: seq<string>)
      modifies this`ns92Queue, tx`seqCounter
      ensures tx.seqCounter == (old(tx.seqCounter) + |esns|) % UINT16
      ensures ns92Queue == old(ns92Queue)
                           + OfferEtags(tx.registerIP, tx.transactionSeq, Offer(pos, esns), old(tx.seqCounter))
    {
      ghost var etags := OfferEtags(tx.registerIP, tx.transactionSeq, Offer(pos, esns), tx.seqCounter);
      for i := 0 to |esns|
        invariant ns92Queue == old(ns92Queue) + etags[..i]
        invariant tx.seqCounter == (old(tx.seqCounter) + i) % UINT16
      {
        var etag := Etag(EtagIdOf(tx.registerIP, map["_pos" := Obj(pos)]), tx.registerIP, tx.transactionSeq, 92,
                         None, esns[i], tx.seqCounter, pos);
        tx.seqCounter := (tx.seqCounter + 1) % UINT16;
        ns92Queue := ns92Queue + [etag];
        assert etags[i] == etag;
      }
    }

    method SendToNS92(pos: Event, tx: POSTransactionState)
      modifies this`ns92Queue, tx`seqCounter, tx`offers
      ensures tx.View() == SendNs92(old(tx.View()), pos, Fanout(tx.registerIP))
      ensures ns92Queue == old(ns92Queue) + NewEtags(old(tx.View()), tx.View())
    {
      SendEtags(tx.View(), pos, Fanout(tx.registerIP));
      var esns := routes.GetESNsForIP(tx.registerIP);
      SendToEachEsn(pos, tx, esns);
      tx.offers := tx.offers + [Offer(pos, esns)];
    }

    /** Copies one field of a stored event, when present and not null. */
    method CopyField(pos: Event, stored: Option<Event>, key: string) returns (posData: Event)
      ensures posData == pos + Field(stored, key)
    {
      posData := pos;
      if stored.Some? && key in stored.value && stored.value[key] != Null {
        posData := posData[key := stored.value[key]];
      }
    }

    method BuildStartPos(tx: POSTransactionState) returns (posData: Event)
      ensures posData == StartPos(tx.registerIP, tx.metaData, tx.transactionHeader)
    {
      posData := map["domain" := Str(DOMAIN), "register_ip" := Str(tx.registerIP),
                     "CMD" := Str("StartTransaction")];
      hide Field;
      posData := CopyField(posData, tx.metaData, "metaData");
      posData := CopyField(posData, tx.transactionHeader, "transactionHeader");
    }

    method BuildEventPos(tx: POSTransactionState, eventData: Event) returns (posData: Event)
      ensures posData == EventPos(tx.registerIP, tx.metaData, eventData)
    {
      hide Field;
      posData := map["domain" := Str(DOMAIN), "register_ip" := Str(tx.registerIP)];
      posData := CopyField(posData, tx.metaData, "metaData");
      ghost var base := posData;
      var remaining := eventData.Keys;
      while remaining != {}
        invariant remaining <= eventData.Keys
        invariant posData == base + (eventData - {"metaData"} - remaining)
        decreases remaining
      {
        var key :| key in remaining;
        if key != "metaData" {
          posData := posData[key := eventData[key]];
        }
        remaining := remaining - {key};
      }
      assert eventData - {"metaData"} - {} == eventData - {"metaData"};
    }

    method SendCombinedStartTriadNS92(tx: POSTransactionState)
      modifies this`ns92Queue, tx`seqCounter, tx`offers
      ensures tx.View() == SendNs92(old(tx.View()), StartPos(tx.registerIP, tx.metaData, tx.transactionHeader),
                                    Fanout(tx.registerIP))
      ensures ns92Queue == old(ns92Queue) + NewEtags(old(tx.View()), tx.View())
    {
      var posData := BuildStartPos(tx);
      SendToNS92(posData, tx);
    }

    method SendType1BNS92(tx: POSTransactionState, eventData: Event)
      modifies this`ns92Queue, tx`seqCounter, tx`offers
      ensures tx.View() == SendNs92(old(tx.View()), EventPos(tx.registerIP, tx.metaData, eventData),
                                    Fanout(tx.registerIP))
      ensures ns92Queue == old(ns92Queue) + NewEtags(old(tx.View()), tx.View())
    {
      var posData := BuildEventPos(tx, eventData);
      SendToNS92(posData, tx);
    }

    // ----- one transaction receives one event -----

    method ReportsCartEnd(eventData: Event) returns (cartEnd: bool)
      requires IsOther(eventData)
      ensures cartEnd == IsCartEnd(eventData)
    {
      var cartChangeTrail := ObjectAt(eventData, "cartChangeTrail");
      if cartChangeTrail.Some? {
        var eventResult := StringAt(cartChangeTrail.value, "eventResult");
        if eventResult.Some? {
          return eventResult.value == "endOfTransaction";
        }
      }
      return false;
    }

    method RecordEvent(tx: POSTransactionState, eventData: Event, cartEndNow: nat, ghost a: Arrival)
      requires IsOther(eventData) && tx.cartEnd.None?
      requires a.event == eventData && a.clock.cartEnd == cartEndNow
      modifies tx`otherEvents, tx`cartEnd
      ensures tx.View() == Record(old(tx.View()), a)
    {
      hide IsCartEnd, IsOther;
      tx.otherEvents := tx.otherEvents + [eventData];
      var cartEnd := ReportsCartEnd(eventData);
      if cartEnd {
        tx.cartEnd := Some(cartEndNow);
      }
    }

    /** The new activity time; a running timer is reset. */
    method Touch(tx: POSTransactionState, now: nat, ghost a: Arrival)
      modifies tx`lastActivity, tx`routed, tx`cartEnd
      ensures tx.cartEnd == None
      ensures tx.View() == old(tx.View()).(lastActivity := now, cartEnd := None, routed := old(tx.routed) + [a])
    {
      tx.lastActivity := now;
      tx.routed := tx.routed + [a];
      if tx.cartEnd.Some? {
        tx.cartEnd := None;
      }
    }

    method AbsorbEvent(tx: POSTransactionState, eventData: Event, now: nat, cartEndNow: nat, ghost a: Arrival)
      requires a.event == eventData && a.clock.now == now && a.clock.cartEnd == cartEndNow
      modifies tx`lastActivity, tx`routed, tx`cartEnd, tx`metaData, tx`transactionHeader, tx`otherEvents
      ensures tx.View() == Absorb(old(tx.View()), a)
    {
      hide Record, IsCartEnd;
      Touch(tx, now, a);
      if "metaData" in eventData {
        tx.metaData := Some(eventData);
      } else if "transactionHeader" in eventData {
        tx.transactionHeader := Some(eventData);
      } else {
        RecordEvent(tx, eventData, cartEndNow, a);
      }
    }

    method SendPendingEvents(tx: POSTransactionState)
      modifies this`ns92Queue, tx`seqCounter, tx`offers
      ensures tx.View() == SendEach(old(tx.View()), tx.pending, Fanout(tx.registerIP))
      ensures ns92Queue == old(ns92Queue) + NewEtags(old(tx.View()), tx.View())
    {
      hide NewEtags, Continues, StartPos, EventPos, Resolve;
      ghost var before := tx.View();
      NewEtagsNone(before);
      for i := 0 to |tx.pending|
        invariant tx.View() == SendEach(before, tx.pending[..i], Fanout(tx.registerIP))
        invariant ns92Queue == old(ns92Queue) + NewEtags(before, tx.View())
      {
        ghost var mid := tx.View();
        SendType1BNS92(tx, tx.pending[i]);
        NewEtagsTransitive(before, mid, tx.View());
        assert tx.pending[..i + 1][..i] == tx.pending[..i];
      }
      assert tx.pending[..|tx.pending|] == tx.pending;
    }

    method SendStartStream(tx: POSTransactionState)
      modifies this`ns92Queue, tx`seqCounter, tx`offers
      ensures tx.View() == StartStream(old(tx.View()), Fanout(tx.registerIP))
      ensures ns92Queue == old(ns92Queue) + NewEtags(old(tx.View()), tx.View())
    {
      hide NewEtags, Continues, StartPos, EventPos, Resolve;
      SendCombinedStartTriadNS92(tx);
      ghost var mid := tx.View();
      SendPendingEvents(tx);
      NewEtagsTransitive(old(tx.View()), mid, tx.View());
    }

    method ConfirmStartTriad(tx: POSTransactionState)
      modifies this`ns92Queue, tx`hasStartTriad, tx`individualNs92Allowed, tx`seqCounter, tx`offers, tx`pending
      ensures tx.View() == ConfirmTriad(old(tx.View()), Fanout(tx.registerIP))
      ensures ns92Queue == old(ns92Queue) + NewEtags(old(tx.View()), tx.View())
    {
      hide NewEtags, Continues, StartPos, EventPos, Resolve, StartStream;
      if tx.cmd.Some? && tx.metaData.Some? && tx.transactionHeader.Some? && !tx.hasStartTriad {
        tx.hasStartTriad := true;
        tx.individualNs92Allowed := true;
        ghost var confirmed := tx.View();
        SendStartStream(tx);
        ghost var sent := tx.View();
        tx.pending := [];
        NewEtagsFrame(old(tx.View()), tx.View(), confirmed, sent);
      } else {
        NewEtagsNone(tx.View());
      }
    }

    method ForwardEvent(tx: POSTransactionState, eventData: Event)
      modifies this`ns92Queue, tx`seqCounter, tx`offers, tx`pending
      ensures tx.View() == Forward(old(tx.View()), eventData, Fanout(tx.registerIP))
      ensures ns92Queue == old(ns92Queue) + NewEtags(old(tx.View()), tx.View())
    {
      if tx.individualNs92Allowed {
        var skipIndividualNS92 := false;
        if IsStartDemarcator(eventData) || IsEndDemarcator(eventData) {
          skipIndividualNS92 := true;
        } else if "metaData" in eventData {
          skipIndividualNS92 := true;
        } else if "transactionHeader" in eventData {
          skipIndividualNS92 := true;
        } else if "paymentSummary" in eventData {
          skipIndividualNS92 := true;
        } else if "transactionSummary" in eventData {
          skipIndividualNS92 := true;
        } else if "transactionFooter" in eventData {
          skipIndividualNS92 := true;
        }
        if !skipIndividualNS92 {
          SendType1BNS92(tx, eventData);
        }
      } else {
        if "CMD" !in eventData && "metaData" !in eventData && "transactionHeader" !in eventData {
          tx.pending := tx.pending + [eventData];
        }
      }
    }

    // ----- closing: NS91 -----

    method BuildSeed(tx: POSTransactionState) returns (posData: Event)
      ensures posData == Seed(tx.View())
    {
      posData := map["domain" := Str(DOMAIN), "register_ip" := Str(tx.registerIP)];
      if tx.endCmd != "" {
        posData := posData["CMD" := Str(tx.endCmd)];
      }
      hide Field;
      posData := CopyField(posData, tx.metaData, "metaData");
      posData := CopyField(posData, tx.transactionHeader, "transactionHeader");
    }

    method DecideStatus(tx: POSTransactionState, requested: Option<Status>) returns (status: Option<Status>)
      ensures status == FinalStatus(tx.View(), requested)
    {
      status := requested;
      if status.None? {
        if tx.cartEnd.None? {
          var significant := HasSignificantTransactionContent(tx.otherEvents);
          if !significant {
            status := Some(Abandoned);
          }
        }
      }
    }

    method SendToNS91WithESN(tx: POSTransactionState, requested: Option<Status>, esn: string, ghost c: Closing)
      requires c.transaction == tx.View() && c.requested == requested
      modifies this`ns91Queue
      ensures ns91Queue == old(ns91Queue) + [Ns91Etag(c, esn)]
    {
      hide Aggregate, Seed, FinalStatus, EtagIdOf, GoodSeed;
      var seed := BuildSeed(tx);
      SeedIsGood(tx.View());
      var posData := AggregateEvents(seed, tx.otherEvents);
      var status := DecideStatus(tx, requested);
      if status.Some? {
        posData := posData["status" := Str(StatusName(status.value))];
      }
      assert posData == Ns91Pos(c.transaction, requested);
      var meta: Event := if tx.metaData.Some? then tx.metaData.value else map[];
      ns91Queue := ns91Queue + [Etag(EtagIdOf(tx.registerIP, meta), tx.registerIP, tx.transactionSeq, 91, status,
                                     esn, (|tx.otherEvents| + 4) % UINT16, posData)];
    }

    method SendToNS91(tx: POSTransactionState, requested: Option<Status>, ghost cause: Cause)
      modifies this`ns91Queue
      ensures ns91Queue == old(ns91Queue)
                           + ClosingEtags(Closing(tx.View(), requested, cause, Fanout(tx.registerIP)))
    {
      hide Ns91Etag;
      var esns := routes.GetESNsForIP(tx.registerIP);
      ghost var c := Closing(tx.View(), requested, cause, esns);
      for i := 0 to |esns|
        invariant ns91Queue == old(ns91Queue) + ClosingEtags(c)[..i]
      {
        SendToNS91WithESN(tx, requested, esns[i], c);
        assert ClosingEtags(c)[i] == Ns91Etag(c, esns[i]);
      }
    }

    method FlushUnknownEventGroup(group: UnknownEventGroup)
      modifies this`ns91Queue
      ensures ns91Queue == old(ns91Queue)
                           + ClosingEtags(Closing(GroupTransaction(group.View()), Some(Unknown), UnknownFlush,
                                                  Fanout(group.registerIP)))
    {
      hide ClosingEtags, Resolve;
      var fakeTransaction := new POSTransactionState.ForGroup(group);
      SendToNS91(fakeTransaction, Some(Unknown), UnknownFlush);
    }

    method DeleteTransaction(ipState: IPState, txn: string)
      requires ipState.Valid() && txn in ipState.activeTransactions
      modifies ipState`activeTransactions
      ensures ipState.Valid()
      ensures ipState.activeTransactions == old(ipState.activeTransactions) - {txn}
      ensures ipState.ActiveView() == old(ipState.ActiveView()) - {txn}
    {
      ipState.activeTransactions := ipState.activeTransactions - {txn};
    }

    /** Sends one transaction as an NS91 and deletes it. */
    method CloseOne(ipState: IPState, txn: string, requested: Option<Status>, ghost cause: Cause)
      requires ipState.Valid() && txn in ipState.activeTransactions
      modifies this`ns91Queue, ipState`activeTransactions, ipState`closings
      ensures ipState.Valid()
      ensures ipState.activeTransactions == old(ipState.activeTransactions) - {txn}
      ensures ipState.View() == CloseTransaction(old(ipState.View()), txn, requested, cause, Fanout(ipState.registerIP))
      ensures Offered91(old(ns91Queue), old(ipState.closings), ns91Queue, ipState.closings)
    {
      hide ClosingEtags, Resolve, Offered91, IPState.GroupsView, POSTransactionState.View;
      var tx := ipState.activeTransactions[txn];
      assert tx.registerIP == ipState.registerIP && ipState.ActiveView()[txn] == tx.View();
      hide IPState.Valid, IPState.ActiveView;
      Offered91None(ns91Queue, ipState.closings);
      SendToNS91(tx, requested, cause);
      ghost var c := Closing(tx.View(), requested, cause, Fanout(tx.registerIP));
      Offered91Snoc(old(ns91Queue), ipState.closings, old(ns91Queue), ipState.closings, c);
      DeleteTransaction(ipState, txn);
      ipState.closings := ipState.closings + [c];
    }

    method DeleteGroup(ipState: IPState, key: nat)
      requires ipState.Valid() && key in ipState.unknownEventGroups
      modifies ipState`unknownEventGroups
      ensures ipState.Valid()
      ensures ipState.unknownEventGroups == old(ipState.unknownEventGroups) - {key}
      ensures ipState.GroupsView() == old(ipState.GroupsView()) - {key}
    {
      ipState.unknownEventGroups := ipState.unknownEventGroups - {key};
    }

    method FlushOne(ipState: IPState, key: nat)
      requires ipState.Valid() && key in ipState.unknownEventGroups
      modifies this`ns91Queue, ipState`unknownEventGroups, ipState`closings
      ensures ipState.Valid()
      ensures ipState.unknownEventGroups == old(ipState.unknownEventGroups) - {key}
      ensures ipState.View() == FlushGroup(old(ipState.View()), key, Fanout(ipState.registerIP))
      ensures Offered91(old(ns91Queue), old(ipState.closings), ns91Queue, ipState.closings)
    {
      hide ClosingEtags, Resolve, Offered91, GroupTransaction, IPState.ActiveView, UnknownEventGroup.View;
      var group := ipState.unknownEventGroups[key];
      assert group.registerIP == ipState.registerIP && ipState.GroupsView()[key] == group.View();
      hide IPState.Valid, IPState.GroupsView;
      Offered91None(ns91Queue, ipState.closings);
      FlushUnknownEventGroup(group);
      ghost var c := Closing(GroupTransaction(group.View()), Some(Unknown), UnknownFlush, Fanout(group.registerIP));
      Offered91Snoc(old(ns91Queue), ipState.closings, old(ns91Queue), ipState.closings, c);
      DeleteGroup(ipState, key);
      ipState.closings := ipState.closings + [c];
    }

    // ----- the sweeps -----

    method CleanupOldUnknownEvents(ipState: IPState, now: nat) returns (ghost order: seq<nat>)
      requires ipState.Valid()
      modifies this`ns91Queue, ipState`unknownEventGroups, ipState`closings
      ensures ipState.Valid()
      ensures Enumerates(order, StaleGroups(old(ipState.View()).state, now))
      ensures ipState.View() == FlushGroups(old(ipState.View()), order, Fanout(ipState.registerIP))
      ensures Offered91(old(ns91Queue), old(ipState.closings), ns91Queue, ipState.closings)
      ensures ipState.unknownEventGroups.Values <= old(ipState.unknownEventGroups.Values)
    {
      hide Offered91, Resolve, FlushGroup, FlushGroups, IPState.View, IPState.StateView, IPState.Valid;
      hide Enumerates, Visits;
      order := [];
      ipState.ViewsAgree();
      ghost var before := ipState.View();
      ghost var esns := Fanout(ipState.registerIP);
      ghost var stale := StaleGroups(before.state, now);
      var remaining := ipState.unknownEventGroups.Keys;
      Offered91None(ns91Queue, ipState.closings);
      VisitNone(stale, remaining);
      FlushGroupsSnoc(before, [], 0, esns);
      while remaining != {}
        invariant ipState.Valid()
        invariant remaining <= ipState.unknownEventGroups.Keys
        invariant Visits(order, stale, remaining)
        invariant ipState.View() == FlushGroups(before, order, esns)
        invariant Offered91(old(ns91Queue), old(ipState.closings), ns91Queue, ipState.closings)
        invariant ipState.unknownEventGroups.Values <= old(ipState.unknownEventGroups.Values)
        decreases remaining
      {
        var key :| key in remaining;
        ipState.ViewsAgree();
        FlushGroupsState(before, order, esns);
        VisitOne(order, stale, remaining, key);
        if ipState.unknownEventGroups[key].lastActivity + 60 * SECOND < now {
          ghost var q, c := ns91Queue, ipState.closings;
          FlushOne(ipState, key);
          Offered91Transitive(old(ns91Queue), old(ipState.closings), q, c, ns91Queue, ipState.closings);
          FlushGroupsSnoc(before, order, key, esns);
          order := order + [key];
        }
        remaining := remaining - {key};
      }
      VisitAll(order, stale);
    }

    /** The two timeout rules; the cart-end rule comes first. */
    method Expiry(transaction: POSTransactionState, now: nat)
      returns (shouldTimeout: bool, status: Option<Status>)
      ensures shouldTimeout <==> TimedOut(transaction.View(), now)
      ensures shouldTimeout ==> status == TimeoutStatus(transaction.View(), now)
    {
      shouldTimeout, status := false, None;
      if !transaction.isComplete {
        if transaction.cartEnd.Some? && transaction.cartEnd.value + 10 * SECOND < now {
          shouldTimeout := true;
        } else if transaction.lastActivity + 60 * SECOND < now {
          shouldTimeout, status := true, Some(Abandoned);
        }
      }
    }

    method CleanupAbandonedTransactions(ipState: IPState, now: nat) returns (ghost order: seq<string>)
      requires ipState.Valid()
      modifies this`ns91Queue, ipState`activeTransactions, ipState`closings
      ensures ipState.Valid()
      ensures Enumerates(order, TimedOuts(old(ipState.View()).state, now))
      ensures ipState.View() == TimeOuts(old(ipState.View()), order, now, Fanout(ipState.registerIP))
      ensures Offered91(old(ns91Queue), old(ipState.closings), ns91Queue, ipState.closings)
      ensures ipState.activeTransactions.Values <= old(ipState.activeTransactions.Values)
    {
      hide Offered91, Resolve, CloseTransaction, TimeOuts, IPState.View, IPState.StateView, IPState.Valid;
      hide TimedOut, TimeoutStatus, TimeoutCause, POSTransactionState.View, UnknownEventGroup.View;
      hide Enumerates, Visits, IPState.ActiveView, IPState.GroupsView;
      order := [];
      ipState.ViewsAgree();
      ghost var before := ipState.View();
      ghost var esns := Fanout(ipState.registerIP);
      ghost var timedOut := TimedOuts(before.state, now);
      var remaining := ipState.activeTransactions.Keys;
      Offered91None(ns91Queue, ipState.closings);
      VisitNone(timedOut, remaining);
      hide TimedOuts;
      TimeOutsSnoc(before, [], "", now, esns);
      while remaining != {}
        invariant ipState.Valid()
        invariant remaining <= ipState.activeTransactions.Keys
        invariant Visits(order, timedOut, remaining)
        invariant ipState.View() == TimeOuts(before, order, now, esns)
        invariant Offered91(old(ns91Queue), old(ipState.closings), ns91Queue, ipState.closings)
        invariant ipState.activeTransactions.Values <= old(ipState.activeTransactions.Values)
        decreases remaining
      {
        var txn :| txn in remaining;
        StillTimedOut(ipState, before, order, now, esns, txn);
        VisitOne(order, timedOut, remaining, txn);
        var transaction := ipState.activeTransactions[txn];
        var shouldTimeout, status := Expiry(transaction, now);
        if shouldTimeout {
          ghost var q, c := ns91Queue, ipState.closings;
          CloseOne(ipState, txn, status, TimeoutCause(transaction.View(), now));
          Offered91Transitive(old(ns91Queue), old(ipState.closings), q, c, ns91Queue, ipState.closings);
          TimeOutsSnoc(before, order, txn, now, esns);
          order := order + [txn];
        }
        remaining := remaining - {txn};
      }
      VisitAll(order, timedOut);
    }

    /** What the first half of a sweep left untouched is still as it was before. */
    lemma StillTimedOut(ipState: IPState, before: Trace, order: seq<string>, now: nat, esns: seq<string>, txn: string)
      requires ipState.View() == TimeOuts(before, order, now, esns) && txn in ipState.activeTransactions
      ensures txn in ipState.View().state.active
      ensures ipState.View().state.active[txn] == ipState.activeTransactions[txn].View()
      ensures txn in TimedOuts(before.state, now) <==> TimedOut(ipState.activeTransactions[txn].View(), now)
    {
      hide TimeOuts, TimedOut, IPState.View;
      ipState.ViewsAgree();
      TimeOutsState(before, order, now, esns);
    }

    lemma StillOther(ipState: IPState, before: Trace, order: seq<string>, esns: seq<string>, txn: string,
                     latest: string)
      requires ipState.View() == Abandon(before, order, EndSeenOther, esns) && txn in ipState.activeTransactions
      ensures txn in Others(before.state, latest) <==>
              txn != latest && !ipState.activeTransactions[txn].isComplete
    {
      hide Abandon, IPState.View;
      ipState.ViewsAgree();
      AbandonState(before, order, EndSeenOther, esns);
      ipState.activeTransactions[txn].Flags();
    }

    // ----- the demarcators -----

    method HandleStartTransaction(ipState: IPState, now: nat) returns (ghost order: seq<string>)
      requires ipState.Valid()
      modifies this`ns91Queue, ipState`activeTransactions, ipState`closings, ipState`pendingStart
      ensures ipState.Valid() && ipState.activeTransactions == map[]
      ensures Enumerates(order, old(ipState.View()).state.active.Keys)
      ensures ipState.View() == HandleStart(old(ipState.View()), now, order, Fanout(ipState.registerIP))
      ensures Offered91(old(ns91Queue), old(ipState.closings), ns91Queue, ipState.closings)
    {
      hide Offered91, Resolve, CloseTransaction, Abandon, IPState.View, IPState.StateView, IPState.Valid;
      hide Enumerates, Visits;
      order := [];
      ipState.ViewsAgree();
      ghost var before := ipState.View();
      ghost var esns := Fanout(ipState.registerIP);
      Offered91None(ns91Queue, ipState.closings);
      VisitNone(before.state.active.Keys, before.state.active.Keys);
      AbandonSnoc(before, [], "", StartSeen, esns);
      while ipState.activeTransactions.Keys != {}
        invariant ipState.Valid()
        invariant ipState.activeTransactions.Keys <= before.state.active.Keys
        invariant Visits(order, before.state.active.Keys, ipState.activeTransactions.Keys)
        invariant ipState.View() == Abandon(before, order, StartSeen, esns)
        invariant Offered91(old(ns91Queue), old(ipState.closings), ns91Queue, ipState.closings)
        decreases ipState.activeTransactions.Keys
      {
        var txn :| txn in ipState.activeTransactions.Keys;
        ghost var keys, q, c := ipState.activeTransactions.Keys, ns91Queue, ipState.closings;
        VisitOne(order, before.state.active.Keys, keys, txn);
        if ipState.activeTransactions[txn].hasStartTriad {
          CloseOne(ipState, txn, Some(Abandoned), StartSeen);
        } else {
          CloseOne(ipState, txn, Some(Abandoned), StartSeen);
        }
        assert ipState.activeTransactions.Keys == keys - {txn};
        Offered91Transitive(old(ns91Queue), old(ipState.closings), q, c, ns91Queue, ipState.closings);
        AbandonSnoc(before, order, txn, StartSeen, esns);
        order := order + [txn];
      }
      VisitAll(order, before.state.active.Keys);
      SetPendingStart(ipState, Some(now));
    }

    /** A pending start that never got its metaData is dropped; `next` replaces it. */
    method SetPendingStart(ipState: IPState, next: Option<nat>)
      requires ipState.Valid()
      modifies ipState`pendingStart
      ensures ipState.Valid()
      ensures ipState.View() == old(ipState.View()).(state := old(ipState.View()).state.(pendingStart := next))
    {
      hide IPState.ActiveView, IPState.GroupsView;
      if ipState.pendingStart.Some? {
        ipState.pendingStart := None;
      }
      ipState.pendingStart := next;
    }

    method FindLatest(ipState: IPState) returns (latest: Option<string>)
      ensures latest.None? <==> ipState.activeTransactions == map[]
      ensures latest.Some? ==> IsLatest(ipState.ActiveView(), latest.value)
    {
      latest := None;
      var remaining := ipState.activeTransactions.Keys;
      while remaining != {}
        invariant remaining <= ipState.activeTransactions.Keys
        invariant latest.None? <==> remaining == ipState.activeTransactions.Keys
        invariant latest.Some? ==> latest.value in ipState.activeTransactions.Keys - remaining
        invariant forall k :: latest.Some? && k in ipState.activeTransactions && k !in remaining ==>
                    ipState.activeTransactions[k].lastActivity <= ipState.activeTransactions[latest.value].lastActivity
        decreases remaining
      {
        var candidate :| candidate in remaining;
        if latest.None? ||
           ipState.activeTransactions[candidate].lastActivity > ipState.activeTransactions[latest.value].lastActivity {
          latest := Some(candidate);
        }
        remaining := remaining - {candidate};
      }
    }

    method FlushAllUnknown(ipState: IPState) returns (ghost order: seq<nat>)
      requires ipState.Valid()
      modifies this`ns91Queue, ipState`unknownEventGroups, ipState`closings
      ensures ipState.Valid() && ipState.unknownEventGroups == map[]
      ensures Enumerates(order, old(ipState.View()).state.groups.Keys)
      ensures ipState.View() == FlushGroups(old(ipState.View()), order, Fanout(ipState.registerIP))
      ensures Offered91(old(ns91Queue), old(ipState.closings), ns91Queue, ipState.closings)
    {
      hide Offered91, Resolve, FlushGroup, FlushGroups, IPState.View, IPState.StateView, IPState.Valid;
      hide Enumerates, Visits;
      order := [];
      ipState.ViewsAgree();
      ghost var before := ipState.View();
      ghost var esns := Fanout(ipState.registerIP);
      Offered91None(ns91Queue, ipState.closings);
      VisitNone(before.state.groups.Keys, before.state.groups.Keys);
      FlushGroupsSnoc(before, [], 0, esns);
      while ipState.unknownEventGroups.Keys != {}
        invariant ipState.Valid()
        invariant ipState.unknownEventGroups.Keys <= before.state.groups.Keys
        invariant Visits(order, before.state.groups.Keys, ipState.unknownEventGroups.Keys)
        invariant ipState.View() == FlushGroups(before, order, esns)
        invariant Offered91(old(ns91Queue), old(ipState.closings), ns91Queue, ipState.closings)
        decreases ipState.unknownEventGroups.Keys
      {
        var key :| key in ipState.unknownEventGroups.Keys;
        ghost var keys, q, c := ipState.unknownEventGroups.Keys, ns91Queue, ipState.closings;
        VisitOne(order, before.state.groups.Keys, keys, key);
        FlushOne(ipState, key);
        assert ipState.unknownEventGroups.Keys == keys - {key};
        Offered91Transitive(old(ns91Queue), old(ipState.closings), q, c, ns91Queue, ipState.closings);
        FlushGroupsSnoc(before, order, key, esns);
        order := order + [key];
      }
      VisitAll(order, before.state.groups.Keys);
    }

    method AbandonOthers(ipState: IPState, latest: string) returns (ghost order: seq<string>)
      requires ipState.Valid() && latest in ipState.activeTransactions
      modifies this`ns91Queue, ipState`activeTransactions, ipState`closings
      ensures ipState.Valid() && latest in ipState.activeTransactions
      ensures Enumerates(order, Others(old(ipState.View()).state, latest))
      ensures ipState.View() == Abandon(old(ipState.View()), order, EndSeenOther, Fanout(ipState.registerIP))
      ensures Offered91(old(ns91Queue), old(ipState.closings), ns91Queue, ipState.closings)
      ensures ipState.activeTransactions.Values <= old(ipState.activeTransactions.Values)
    {
      hide Offered91, Resolve, CloseTransaction, Abandon, IPState.View, IPState.StateView, IPState.Valid;
      hide POSTransactionState.View, UnknownEventGroup.View, IPState.ActiveView, IPState.GroupsView;
      hide Enumerates, Visits;
      order := [];
      ipState.ViewsAgree();
      ghost var before := ipState.View();
      ghost var esns := Fanout(ipState.registerIP);
      ghost var others := Others(before.state, latest);
      var remaining := ipState.activeTransactions.Keys;
      Offered91None(ns91Queue, ipState.closings);
      VisitNone(others, remaining);
      hide Others;
      AbandonSnoc(before, [], "", EndSeenOther, esns);
      while remaining != {}
        invariant ipState.Valid() && latest in ipState.activeTransactions
        invariant remaining <= ipState.activeTransactions.Keys
        invariant Visits(order, others, remaining)
        invariant ipState.View() == Abandon(before, order, EndSeenOther, esns)
        invariant Offered91(old(ns91Queue), old(ipState.closings), ns91Queue, ipState.closings)
        invariant ipState.activeTransactions.Values <= old(ipState.activeTransactions.Values)
        decreases remaining
      {
        var txn :| txn in remaining;
        StillOther(ipState, before, order, esns, txn, latest);
        VisitOne(order, others, remaining, txn);
        if txn != latest && !ipState.activeTransactions[txn].isComplete {
          ghost var q, c := ns91Queue, ipState.closings;
          CloseOne(ipState, txn, Some(Abandoned), EndSeenOther);
          Offered91Transitive(old(ns91Queue), old(ipState.closings), q, c, ns91Queue, ipState.closings);
          AbandonSnoc(before, order, txn, EndSeenOther, esns);
          order := order + [txn];
        }
        remaining := remaining - {txn};
      }
      VisitAll(order, others);
    }

    method MarkComplete(ghost ipState: IPState, ghost latest: string, tx: POSTransactionState, cmd: Option<string>)
      requires ipState.Valid() && latest in ipState.activeTransactions && ipState.activeTransactions[latest] == tx
      modifies tx`isComplete, tx`endCmd
      ensures ipState.Valid()
      ensures ipState.ActiveView() ==
              var tx := old(ipState.ActiveView())[latest];
              old(ipState.ActiveView())[latest := tx.(isComplete := true,
                                                       endCmd := if cmd.Some? then cmd.value else tx.endCmd)]
    {
      tx.isComplete := true;
      if cmd.Some? {
        tx.endCmd := cmd.value;
      }
      assert ipState.activeTransactions[latest].View() ==
             old(ipState.activeTransactions[latest].View()).(isComplete := true, endCmd := tx.endCmd);
      hide POSTransactionState.View, UnknownEventGroup.View;
      ipState.ActiveTouched(latest);
      assert old(ipState.ActiveView())[latest] == old(ipState.activeTransactions[latest].View());
    }

    method CompleteLatest(ipState: IPState, latest: string, eventData: Event)
      requires ipState.Valid() && latest in ipState.activeTransactions
      modifies this`ns91Queue, ipState`activeTransactions, ipState`closings, ipState.activeTransactions[latest]
      ensures ipState.Valid()
      ensures ipState.View() == EndLatest(old(ipState.View()), latest, eventData, Fanout(ipState.registerIP))
      ensures Offered91(old(ns91Queue), old(ipState.closings), ns91Queue, ipState.closings)
      ensures ipState.activeTransactions.Values <= old(ipState.activeTransactions.Values)
    {
      hide Offered91, Resolve, CloseTransaction, IPState.GroupsView, StringAt;
      hide IPState.Valid, IPState.ActiveView, POSTransactionState.View, UnknownEventGroup.View;
      var tx := ipState.activeTransactions[latest];
      ipState.ViewsAgree();
      tx.Flags();
      Offered91None(ns91Queue, ipState.closings);
      if !tx.ns91Sent {
        if tx.individualNs92Allowed {
          MarkComplete(ipState, latest, tx, StringAt(eventData, "CMD"));
          CloseOne(ipState, latest, None, EndSeenLatest);
        } else {
          CloseOne(ipState, latest, Some(Abandoned), EndSeenLatest);
        }
      }
    }

    method HandleEndTransaction(ipState: IPState, eventData: Event) returns (ghost choice: Dispatching)
      requires ipState.Valid()
      modifies this`ns91Queue, ipState`activeTransactions, ipState`unknownEventGroups, ipState`closings,
               ipState`pendingStart, ipState.activeTransactions.Values
      ensures ipState.Valid()
      ensures var s := old(ipState.View()).state;
              if s.active == map[] then Enumerates(choice.flushed, s.groups.Keys)
              else IsLatest(s.active, choice.latest) && Enumerates(choice.abandoned, Others(s, choice.latest))
      ensures ipState.View() == HandleEnd(old(ipState.View()), eventData, choice, Fanout(ipState.registerIP))
      ensures Offered91(old(ns91Queue), old(ipState.closings), ns91Queue, ipState.closings)
      ensures ipState.activeTransactions.Values <= old(ipState.activeTransactions.Values)
      ensures ipState.unknownEventGroups.Values <= old(ipState.unknownEventGroups.Values)
    {
      hide Offered91, Resolve, EndLatest, FlushGroups, Abandon, IPState.Valid, IPState.ActiveView, IPState.GroupsView;
      hide Enumerates, IsLatest, Others, POSTransactionState.View, UnknownEventGroup.View, StringAt;
      choice := Dispatching("", [], []);
      ipState.ViewsAgree();
      var latest := FindLatest(ipState);
      Offered91None(ns91Queue, ipState.closings);
      if latest.None? {
        ghost var flushed := FlushAllUnknown(ipState);
        choice := choice.(flushed := flushed);
        SetPendingStart(ipState, None);
      } else {
        ghost var abandoned := EndActive(ipState, latest.value, eventData);
        choice := choice.(latest := latest.value, abandoned := abandoned);
      }
    }

    /** With something active: the others are abandoned, the latest ends. */
    method EndActive(ipState: IPState, latest: string, eventData: Event) returns (ghost abandoned: seq<string>)
      requires ipState.Valid() && latest in ipState.activeTransactions
      modifies this`ns91Queue, ipState`activeTransactions, ipState`closings, ipState`pendingStart,
               ipState.activeTransactions.Values
      ensures ipState.Valid()
      ensures Enumerates(abandoned, Others(old(ipState.View()).state, latest))
      ensures ipState.View() ==
              EndLatest(DropPendingStart(Abandon(old(ipState.View()), abandoned, EndSeenOther,
                                                 Fanout(ipState.registerIP))),
                        latest, eventData, Fanout(ipState.registerIP))
      ensures Offered91(old(ns91Queue), old(ipState.closings), ns91Queue, ipState.closings)
      ensures ipState.activeTransactions.Values <= old(ipState.activeTransactions.Values)
    {
      hide Offered91, Resolve, EndLatest, Abandon, IPState.Valid, IPState.ActiveView, IPState.GroupsView;
      hide Enumerates, Others, POSTransactionState.View, UnknownEventGroup.View, StringAt;
      abandoned := AbandonOthers(ipState, latest);
      SetPendingStart(ipState, None);
      ghost var q, c := ns91Queue, ipState.closings;
      CompleteLatest(ipState, latest, eventData);
      Offered91Transitive(old(ns91Queue), old(ipState.closings), q, c, ns91Queue, ipState.closings);
    }

    // ----- events inside and outside transactions -----

    method OpenTransaction(ipState: IPState, txn: string, now: nat) returns (tx: POSTransactionState)
      requires ipState.Valid() && txn != ""
      modifies ipState`activeTransactions, ipState`pendingStart
      ensures ipState.Valid()
      ensures fresh(tx) || tx in old(ipState.activeTransactions.Values)
      ensures ipState.activeTransactions == old(ipState.activeTransactions)[txn := tx]
      ensures tx.registerIP == ipState.registerIP
      ensures tx.View() == Target(old(ipState.View()).state, txn, now)
      ensures ipState.ActiveView() == old(ipState.ActiveView())[txn := tx.View()]
      ensures ipState.pendingStart ==
              if txn in old(ipState.activeTransactions) then old(ipState.pendingStart) else None
    {
      hide POSTransactionState.View, NewTransaction, IPState.GroupsView, UnknownEventGroup.View, Resolve;
      if txn in ipState.activeTransactions {
        tx := ipState.activeTransactions[txn];
        hide IPState.Valid;
        assert ipState.ActiveView()[txn := tx.View()] == ipState.ActiveView();
      } else {
        tx := NewActive(ipState, txn, now);
      }
    }

    method NewActive(ipState: IPState, txn: string, now: nat) returns (tx: POSTransactionState)
      requires ipState.Valid() && txn != "" && txn !in ipState.activeTransactions
      modifies ipState`activeTransactions, ipState`pendingStart
      ensures ipState.Valid() && fresh(tx) && tx.registerIP == ipState.registerIP
      ensures ipState.activeTransactions == old(ipState.activeTransactions)[txn := tx] && ipState.pendingStart == None
      ensures tx.View() == NewTransaction(ipState.registerIP, txn, now, old(ipState.pendingStart))
      ensures ipState.ActiveView() == old(ipState.ActiveView())[txn := tx.View()]
    {
      hide POSTransactionState.View, NewTransaction, IPState.GroupsView, UnknownEventGroup.View, Resolve;
      tx := new POSTransactionState(ipState.registerIP, txn, now, ipState.pendingStart);
      NewTransactionIdentity(ipState.registerIP, txn, now, ipState.pendingStart);
      tx.Flags();
      if ipState.pendingStart.Some? {
        ipState.pendingStart := None;
      }
      ipState.activeTransactions := ipState.activeTransactions[txn := tx];
    }

    method ReceiveEvent(tx: POSTransactionState, eventData: Event, now: nat, cartEndNow: nat, ghost a: Arrival)
      requires a.event == eventData && a.clock.now == now && a.clock.cartEnd == cartEndNow
      modifies this`ns92Queue, tx
      ensures tx.View() == Receive(old(tx.View()), a, Fanout(tx.registerIP))
      ensures tx.registerIP == old(tx.registerIP)
      ensures Continues(old(tx.View()), tx.View())
      ensures ns92Queue == old(ns92Queue) + NewEtags(old(tx.View()), tx.View())
    {
      hide Continues, NewEtags, Absorb, ConfirmTriad, Forward, Resolve, POSTransactionState.View;
      ghost var before := tx.View();
      ghost var esns := Fanout(tx.registerIP);
      ReceiveContinues(before, a, esns);
      AbsorbEvent(tx, eventData, now, cartEndNow, a);
      ConfirmStartTriad(tx);
      ForwardEvent(tx, eventData);
    }

    method DeliverEvent(ghost ipState: IPState, ghost txn: string, tx: POSTransactionState, eventData: Event,
                        now: nat, cartEndNow: nat, ghost a: Arrival)
      requires ipState.Valid() && txn in ipState.activeTransactions && ipState.activeTransactions[txn] == tx
      requires a.event == eventData && a.clock.now == now && a.clock.cartEnd == cartEndNow
      modifies this`ns92Queue, tx
      ensures ipState.Valid()
      ensures tx.View() == Receive(old(tx.View()), a, Fanout(ipState.registerIP))
      ensures Continues(old(tx.View()), tx.View())
      ensures ns92Queue == old(ns92Queue) + NewEtags(old(tx.View()), tx.View())
      ensures ipState.ActiveView() == old(ipState.ActiveView())[txn := tx.View()]
      ensures ipState.GroupsView() == old(ipState.GroupsView())
    {
      hide Continues, NewEtags, Receive, Resolve, POSTransactionState.View, IPState.ActiveView, IPState.GroupsView;
      ReceiveContinues(tx.View(), a, Fanout(ipState.registerIP));
      assert tx.registerIP == ipState.registerIP;
      ReceiveEvent(tx, eventData, now, cartEndNow, a);
      ipState.ActiveTouched(txn);
    }

    method HandleTransactionEvent(ipState: IPState, txn: string, eventData: Event, now: nat, cartEndNow: nat,
                                  ghost a: Arrival)
      requires ipState.Valid() && txn != "" && !IsDemarcator(eventData)
      requires a.event == eventData && a.clock.now == now && a.clock.cartEnd == cartEndNow
      modifies this`ns92Queue, ipState`activeTransactions, ipState`pendingStart, ipState`ns92,
               ipState.activeTransactions.Values
      ensures ipState.Valid()
      ensures ipState.View() == HandleTransaction(old(ipState.View()), txn, a, Fanout(ipState.registerIP))
      ensures Offered92(old(ns92Queue), old(ipState.ns92), ns92Queue, ipState.ns92)
      ensures fresh(ipState.activeTransactions.Values - old(ipState.activeTransactions.Values))
    {
      hide Continues, NewEtags, Receive, Target, Resolve, POSTransactionState.View, UnknownEventGroup.View;
      hide IPState.ActiveView, IPState.GroupsView, IPState.Valid, Offered92, HandleTransaction;
      ghost var t, q := ipState.View(), ns92Queue;
      ipState.ViewsAgree();
      var tx := OpenTransaction(ipState, txn, now);
      ghost var before := tx.View();
      ReceiveContinues(before, a, Fanout(ipState.registerIP));
      DeliverEvent(ipState, txn, tx, eventData, now, cartEndNow, a);
      Overwrite(old(ipState.ActiveView()), txn, before, tx.View());
      ipState.ns92 := ipState.ns92 + NewEtags(before, tx.View());
      Delivered(t, ipState.View(), txn, a, Fanout(ipState.registerIP), q, ns92Queue);
    }

    lemma Delivered(t: Trace, u: Trace, txn: string, a: Arrival, esns: seq<string>, q0: seq<Etag>, q1: seq<Etag>)
      requires var before := Target(t.state, txn, a.clock.now);
               var after := Receive(before, a, esns);
               Continues(before, after) && q1 == q0 + NewEtags(before, after) &&
               u == Trace(State(t.state.registerIP, t.state.active[txn := after], t.state.groups,
                                if txn in t.state.active then t.state.pendingStart else None, t.state.lastActivity),
                          t.log, t.closings, t.ns92 + NewEtags(before, after))
      ensures u == HandleTransaction(t, txn, a, esns) && Offered92(q0, t.ns92, q1, u.ns92)
    {
      hide Continues, NewEtags, Receive, Target;
    }

    method IsUnknownEventGroupComplete(group: UnknownEventGroup) returns (complete: bool)
      ensures complete == GroupComplete(group.View())
    {
      var hasMetaData, hasCartChange := false, false;
      for i := 0 to |group.events|
        invariant hasMetaData <==> exists j :: 0 <= j < i && "metaData" in group.events[j]
        invariant hasCartChange <==> exists j :: 0 <= j < i && "cartChangeTrail" in group.events[j]
      {
        if "metaData" in group.events[i] {
          hasMetaData := true;
        }
        if "cartChangeTrail" in group.events[i] {
          hasCartChange := true;
        }
      }
      complete := hasMetaData && hasCartChange;
    }

    method OpenGroup(ipState: IPState, key: nat, now: nat) returns (group: UnknownEventGroup)
      requires ipState.Valid()
      modifies ipState`unknownEventGroups
      ensures ipState.Valid() && group.registerIP == ipState.registerIP
      ensures fresh(group) || group in old(ipState.unknownEventGroups.Values)
      ensures ipState.unknownEventGroups == old(ipState.unknownEventGroups)[key := group]
      ensures group.View() == GroupFor(old(ipState.StateView()), key, now)
      ensures ipState.GroupsView() == old(ipState.GroupsView())[key := group.View()]
    {
      hide UnknownEventGroup.View, IPState.ActiveView;
      if key in ipState.unknownEventGroups {
        group := ipState.unknownEventGroups[key];
      } else {
        group := new UnknownEventGroup(ipState.registerIP, now, key);
        assert group.View().registerIP == group.registerIP by { group.Identity(); }
        ipState.unknownEventGroups := ipState.unknownEventGroups[key := group];
      }
    }

    method CollectEvent(ghost ipState: IPState, ghost key: nat, group: UnknownEventGroup, eventData: Event, now: nat,
                        ghost a: Arrival)
      requires ipState.Valid() && key in ipState.unknownEventGroups && ipState.unknownEventGroups[key] == group
      requires a.event == eventData && a.clock.now == now
      modifies group`events, group`lastActivity, group`routed
      ensures ipState.Valid()
      ensures group.View() == Collect(old(group.View()), a)
      ensures ipState.GroupsView() == old(ipState.GroupsView())[key := group.View()]
      ensures ipState.ActiveView() == old(ipState.ActiveView())
    {
      group.events := group.events + [eventData];
      group.lastActivity := now;
      group.routed := group.routed + [a];
      assert group.View() == Collect(old(group.View()), a);
      hide UnknownEventGroup.View, Collect, IPState.ActiveView, IPState.GroupsView;
      ipState.GroupTouched(key);
    }

    method HandleUnknownEvent(ipState: IPState, eventData: Event, now: nat, ghost a: Arrival)
      requires ipState.Valid() && a.event == eventData && a.clock.now == now
      modifies this`ns91Queue, ipState`unknownEventGroups, ipState`closings, ipState.unknownEventGroups.Values
      ensures ipState.Valid()
      ensures ipState.View() == HandleUnknown(old(ipState.View()), a, Fanout(ipState.registerIP))
      ensures Offered91(old(ns91Queue), old(ipState.closings), ns91Queue, ipState.closings)
      ensures fresh(ipState.unknownEventGroups.Values - old(ipState.unknownEventGroups.Values))
    {
      hide Offered91, Resolve, FlushGroup, GroupComplete, Collect, GroupFor;
      hide IPState.ActiveView, IPState.GroupsView, IPState.Valid, UnknownEventGroup.View;
      Offered91None(ns91Queue, ipState.closings);
      var windowKey := now / SECOND / 30;
      var group := OpenGroup(ipState, windowKey, now);
      ghost var before := group.View();
      CollectEvent(ipState, windowKey, group, eventData, now, a);
      Overwrite(old(ipState.GroupsView()), windowKey, before, group.View());
      var complete := IsUnknownEventGroupComplete(group);
      if complete {
        FlushOne(ipState, windowKey);
      }
    }

    // ----- one event -----

    /** The transaction an event without a sequence number is linked to. */
    method LinkTarget(ipState: IPState) returns (latest: string)
      requires ipState.Valid() && ipState.activeTransactions != map[]
      ensures IsLatest(ipState.ActiveView(), latest)
    {
      if |ipState.activeTransactions| == 1 {
        latest :| latest in ipState.activeTransactions;
        OnlyKey(ipState.activeTransactions.Keys, latest);
        return;
      }
      latest := "";
      var latestTime := 0;
      var remaining := ipState.activeTransactions.Keys;
      while remaining != {}
        invariant remaining <= ipState.activeTransactions.Keys
        invariant latest == "" ==> remaining == ipState.activeTransactions.Keys
        invariant latest != "" ==> latest in ipState.activeTransactions.Keys &&
                                   latestTime == ipState.activeTransactions[latest].lastActivity
        invariant forall k :: latest != "" && k in ipState.activeTransactions && k !in remaining ==>
                    ipState.activeTransactions[k].lastActivity <= latestTime
        decreases remaining
      {
        var txn :| txn in remaining;
        if latest == "" || ipState.activeTransactions[txn].lastActivity > latestTime {
          latest := txn;
          latestTime := ipState.activeTransactions[txn].lastActivity;
        }
        remaining := remaining - {txn};
      }
    }

    /** Which transaction the event belongs to: its own sequence number first,
        else the latest active transaction. */
    method RouteEvent(ipState: IPState, data: Event) returns (route: Option<string>, ghost latest: string)
      requires ipState.Valid() && !IsDemarcator(data)
      ensures route == Route(ipState.View().state, data, latest) && route != Some("")
      ensures ValidDispatch(ipState.View().state, data, Dispatching(latest, [], []))
    {
      hide IsLatest, StringAt, TransactionSeqOf, IPState.ActiveView, IPState.GroupsView, IPState.Valid;
      ipState.ViewsAgree();
      latest := "";
      var transactionSeq := TransactionSeqOf(data);
      if transactionSeq == "" {
        if |ipState.activeTransactions| > 0 {
          var target := LinkTarget(ipState);
          latest := target;
          LatestIsKey(ipState, target);
          route := Some(target);
        } else {
          route := None;
        }
      } else {
        route := Some(transactionSeq);
      }
    }

    method DispatchOrdinaryEvent(ipState: IPState, data: Event, clock: Clock, ghost a: Arrival)
      returns (ghost latest: string)
      requires ipState.Valid() && a.event == data && a.clock == clock && !IsDemarcator(data)
      modifies this`ns91Queue, this`ns92Queue, ipState`activeTransactions, ipState`unknownEventGroups,
               ipState`closings, ipState`pendingStart, ipState`ns92,
               ipState.activeTransactions.Values, ipState.unknownEventGroups.Values
      ensures ipState.Valid()
      ensures ValidDispatch(old(ipState.View()).state, data, Dispatching(latest, [], []))
      ensures ipState.View() ==
              DispatchOrdinary(old(ipState.View()), a, Dispatching(latest, [], []), Fanout(ipState.registerIP))
      ensures Offered91(old(ns91Queue), old(ipState.closings), ns91Queue, ipState.closings)
      ensures Offered92(old(ns92Queue), old(ipState.ns92), ns92Queue, ipState.ns92)
      ensures fresh(ipState.activeTransactions.Values - old(ipState.activeTransactions.Values))
      ensures fresh(ipState.unknownEventGroups.Values - old(ipState.unknownEventGroups.Values))
    {
      hide Offered91, Resolve, HandleTransaction, HandleUnknown, ValidDispatch, Route;
      hide IPState.ActiveView, IPState.GroupsView, IPState.Valid;
      Offered91None(ns91Queue, ipState.closings);
      var route, target := RouteEvent(ipState, data);
      latest := target;
      if route.Some? {
        HandleTransactionEvent(ipState, route.value, data, clock.now, clock.cartEnd, a);
      } else {
        HandleUnknownEvent(ipState, data, clock.now, a);
      }
    }

    method DispatchEvent(ipState: IPState, data: Event, clock: Clock, ghost a: Arrival)
      returns (ghost choice: Dispatching)
      requires ipState.Valid() && a.event == data && a.clock == clock
      modifies this`ns91Queue, this`ns92Queue, ipState`activeTransactions, ipState`unknownEventGroups,
               ipState`closings, ipState`pendingStart, ipState`ns92,
               ipState.activeTransactions.Values, ipState.unknownEventGroups.Values
      ensures ipState.Valid()
      ensures ValidDispatch(old(ipState.View()).state, data, choice)
      ensures ipState.View() == Dispatch(old(ipState.View()), a, choice, Fanout(ipState.registerIP))
      ensures Offered91(old(ns91Queue), old(ipState.closings), ns91Queue, ipState.closings)
      ensures Offered92(old(ns92Queue), old(ipState.ns92), ns92Queue, ipState.ns92)
      ensures fresh(ipState.activeTransactions.Values - old(ipState.activeTransactions.Values))
      ensures fresh(ipState.unknownEventGroups.Values - old(ipState.unknownEventGroups.Values))
    {
      hide Offered91, Resolve, HandleStart, HandleEnd, DispatchOrdinary, Enumerates, IsLatest, Others, StringAt;
      hide IPState.ActiveView, IPState.GroupsView, IPState.Valid, TransactionSeqOf;
      hide POSTransactionState.View, UnknownEventGroup.View;
      ipState.ViewsAgree();
      Offered91None(ns91Queue, ipState.closings);
      if IsStartDemarcator(data) {
        ghost var abandoned := HandleStartTransaction(ipState, clock.now);
        choice := Dispatching("", [], abandoned);
      } else if IsEndDemarcator(data) {
        choice := HandleEndTransaction(ipState, data);
      } else {
        ghost var latest := DispatchOrdinaryEvent(ipState, data, clock, a);
        choice := Dispatching(latest, [], []);
      }
    }

    lemma LatestIsKey(ipState: IPState, latest: string)
      requires ipState.Valid() && IsLatest(ipState.ActiveView(), latest)
      ensures latest != ""
    {
    }

    /** ProcessEvent under the lock of the register: the sweeps and the dispatch. */
    method ProcessLocked(ipState: IPState, data: Event, clock: Clock) returns (ghost choice: Choice)
      requires ipState.Valid()
      modifies this`ns91Queue, this`ns92Queue, ipState`activeTransactions, ipState`unknownEventGroups,
               ipState`pendingStart, ipState`lastActivity, ipState`log, ipState`closings, ipState`ns92,
               ipState.activeTransactions.Values, ipState.unknownEventGroups.Values
      ensures ipState.Valid()
      ensures ValidChoice(old(ipState.View()), Input(data, clock, Fanout(ipState.registerIP), choice))
      ensures ipState.View() == Step(old(ipState.View()), Input(data, clock, Fanout(ipState.registerIP), choice))
      ensures Offered91(old(ns91Queue), old(ipState.View()).closings, ns91Queue, ipState.View().closings)
      ensures Offered92(old(ns92Queue), old(ipState.View()).ns92, ns92Queue, ipState.View().ns92)
      ensures fresh(ipState.activeTransactions.Values - old(ipState.activeTransactions.Values))
      ensures fresh(ipState.unknownEventGroups.Values - old(ipState.unknownEventGroups.Values))
    {
      hide Offered91, Offered92, Resolve, Prepare, Dispatch, Enumerates, ValidDispatch, StaleGroups, TimedOuts;
      hide IPState.StateView, IPState.Valid;
      ghost var before, esns := ipState.View(), Fanout(ipState.registerIP);
      ghost var stale, timedOut, a := SweepRegister(ipState, data, clock);
      ghost var q, c := ns91Queue, ipState.closings;
      ghost var dispatch := DispatchEvent(ipState, data, clock, a);
      Offered91Transitive(old(ns91Queue), old(ipState.closings), q, c, ns91Queue, ipState.closings);
      choice := Choice(stale, timedOut, dispatch);
      ghost var swept := Choice(stale, timedOut, Dispatching("", [], []));
      PrepareIgnoresDispatch(before, Input(data, clock, esns, swept), dispatch);
    }

    lemma PrepareIgnoresDispatch(t: Trace, input: Input, dispatch: Dispatching)
      ensures var i := input.(choice := input.choice.(dispatch := dispatch));
              Prepare(t, i) == Prepare(t, input) && NextArrival(t, i) == NextArrival(t, input)
    {
      hide TimeOuts, FlushGroups;
    }

    /** Both sweeps, the new activity time and the log entry. */
    method SweepRegister(ipState: IPState, data: Event, clock: Clock)
      returns (ghost stale: seq<nat>, ghost timedOut: seq<string>, ghost a: Arrival)
      requires ipState.Valid()
      modifies this`ns91Queue, ipState`activeTransactions, ipState`unknownEventGroups, ipState`closings,
               ipState`lastActivity, ipState`log
      ensures ipState.Valid()
      ensures Enumerates(stale, StaleGroups(old(ipState.View()).state, clock.unknownSweep))
      ensures Enumerates(timedOut, TimedOuts(old(ipState.View()).state, clock.transactionSweep))
      ensures var swept := Choice(stale, timedOut, Dispatching("", [], []));
              var input := Input(data, clock, Fanout(ipState.registerIP), swept);
              ipState.View() == Prepare(old(ipState.View()), input) && a == NextArrival(old(ipState.View()), input)
      ensures Offered91(old(ns91Queue), old(ipState.closings), ns91Queue, ipState.closings)
      ensures ipState.activeTransactions.Values <= old(ipState.activeTransactions.Values)
      ensures ipState.unknownEventGroups.Values <= old(ipState.unknownEventGroups.Values)
    {
      hide Offered91, Resolve, FlushGroups, TimeOuts, Enumerates, StaleGroups, TimedOuts;
      hide IPState.ActiveView, IPState.GroupsView, IPState.Valid, POSTransactionState.View, UnknownEventGroup.View;
      ghost var before := ipState.View();
      ghost var esns := Fanout(ipState.registerIP);
      stale := CleanupOldUnknownEvents(ipState, clock.unknownSweep);
      ghost var q, c := ns91Queue, ipState.closings;
      timedOut := CleanupAbandonedTransactions(ipState, clock.transactionSweep);
      Offered91Transitive(old(ns91Queue), old(ipState.closings), q, c, ns91Queue, ipState.closings);
      FlushGroupsKeepTimedOut(before, stale, esns, clock.transactionSweep);
      TimeOutsState(FlushGroups(before, stale, esns), timedOut, clock.transactionSweep, esns);
      FlushGroupsState(before, stale, esns);
      a := Arrival(|ipState.log|, data, clock);
      ipState.lastActivity := clock.now;
      ipState.log := ipState.log + [a];
    }

    // ----- the machine: one state per register IP -----

    /** The machine as a value. */
    ghost function View(): Machine
      reads this`ipStates, this`ns91Queue, this`ns92Queue, ipStates.Values
      reads set s, o | s in ipStates.Values && o in s.activeTransactions.Values :: o
      reads set s, o | s in ipStates.Values && o in s.unknownEventGroups.Values :: o
    {
      Machine(map ip | ip in ipStates :: ipStates[ip].View(), ns91Queue, ns92Queue)
    }

    /** Every IP has its own state, no two states share an object, and the machine is
        where the messages it received lead. */
    ghost predicate Valid()
      reads this`ipStates, this`ns91Queue, this`ns92Queue, this`received, ipStates.Values
      reads set s, o | s in ipStates.Values && o in s.activeTransactions.Values :: o
      reads set s, o | s in ipStates.Values && o in s.unknownEventGroups.Values :: o
    {
      Objects() && ValidMessages(received) && View() == MachineRun(received)
    }

    ghost predicate Objects()
      reads this`ipStates, ipStates.Values
      reads set s, o | s in ipStates.Values && o in s.activeTransactions.Values :: o
      reads set s, o | s in ipStates.Values && o in s.unknownEventGroups.Values :: o
    {
      Each() && Apart()
    }

    ghost predicate Each()
      reads this`ipStates, ipStates.Values
      reads set s, o | s in ipStates.Values && o in s.activeTransactions.Values :: o
      reads set s, o | s in ipStates.Values && o in s.unknownEventGroups.Values :: o
    {
      forall ip :: ip in ipStates ==> ipStates[ip].registerIP == ip && ipStates[ip].Valid()
    }

    ghost predicate Apart()
      reads this`ipStates, ipStates.Values
    {
      forall i, j :: i in ipStates && j in ipStates && i != j ==>
        ipStates[i] != ipStates[j] &&
        ipStates[i].activeTransactions.Values !! ipStates[j].activeTransactions.Values &&
        ipStates[i].unknownEventGroups.Values !! ipStates[j].unknownEventGroups.Values
    }

    /** What holds of every register object and the shared queues: the object is in
        the state of a run of its own events, and its records in the queues are that
        run's. */
    lemma EveryRegister(ip: string)
      requires Valid() && ip in ipStates
      ensures var own := ForIp(received, ip);
              own != [] && ValidRun(Fresh(ip, own[0].clock.arrival), own) &&
              ipStates[ip].View() == Run(Fresh(ip, own[0].clock.arrival), own)
      ensures OfRegister(ns92Queue, ip) == ipStates[ip].View().ns92
      ensures OfRegister(ns91Queue, ip) == Ns91Etags(ipStates[ip].View().closings)
    {
      Independence(received, ip);
      hide Objects, IPState.View, MachineRun, ValidMessages, ForIp, Run, ValidRun, Fresh, Ns91Etags, OfRegister,
           RegisterOk;
      assert View().registers[ip] == ipStates[ip].View();
    }

    /** The trace of a register before an event; a register not seen yet starts fresh. */
    ghost function Before(ip: string, clock: Clock): Trace
      reads this`ipStates, ipStates.Values
      reads set s, o | s in ipStates.Values && o in s.activeTransactions.Values :: o
      reads set s, o | s in ipStates.Values && o in s.unknownEventGroups.Values :: o
    {
      if ip in ipStates then ipStates[ip].View() else Fresh(ip, clock.arrival)
    }

    method GetOrCreateIPState(registerIP: string, now: nat) returns (state: IPState)
      requires Objects()
      modifies this`ipStates
      ensures Objects()
      ensures ipStates == old(ipStates)[registerIP := state]
      ensures registerIP in old(ipStates) ==> state == old(ipStates[registerIP])
      ensures registerIP !in old(ipStates) ==>
                fresh(state) && state.View() == Fresh(registerIP, now) &&
                state.activeTransactions == map[] && state.unknownEventGroups == map[]
      ensures forall ip :: ip in old(ipStates) ==> ipStates[ip].View() == old(ipStates[ip].View())
    {
      hide IPState.View, IPState.Valid, Fresh;
      if registerIP in ipStates {
        hide Objects;
        return ipStates[registerIP];
      }
      state := NewIPState(registerIP, now);
    }

    method NewIPState(registerIP: string, now: nat) returns (state: IPState)
      requires Objects() && registerIP !in ipStates
      modifies this`ipStates
      ensures Objects() && ipStates == old(ipStates)[registerIP := state]
      ensures fresh(state) && state.View() == Fresh(registerIP, now)
      ensures state.activeTransactions == map[] && state.unknownEventGroups == map[]
      ensures forall ip :: ip in old(ipStates) ==> ipStates[ip].View() == old(ipStates[ip].View())
    {
      hide IPState.View, IPState.Valid, Fresh, Objects;
      state := new IPState(registerIP, now);
      ipStates := ipStates[registerIP := state];
      AddedObjects(registerIP, state);
    }

    twostate lemma AddedObjects(ip: string, new state: IPState)
      requires old(Objects()) && ip !in old(ipStates) && ipStates == old(ipStates)[ip := state]
      requires fresh(state) && state.registerIP == ip && state.Valid()
      requires state.activeTransactions == map[] && state.unknownEventGroups == map[]
      requires forall j :: j in old(ipStates) ==> unchanged(ipStates[j])
      requires forall j, o :: j in old(ipStates) && o in ipStates[j].activeTransactions.Values ==> unchanged(o)
      requires forall j, o :: j in old(ipStates) && o in ipStates[j].unknownEventGroups.Values ==> unchanged(o)
      ensures Objects()
    {
      AddedApart(ip, state);
      forall j | j in old(ipStates) ensures ipStates[j].Valid() {
        OneUntouched(ipStates[j]);
      }
      hide IPState.Valid, Apart;
    }

    twostate lemma AddedApart(ip: string, new state: IPState)
      requires old(Apart()) && ip !in old(ipStates) && ipStates == old(ipStates)[ip := state]
      requires fresh(state) && state.activeTransactions == map[] && state.unknownEventGroups == map[]
      requires forall j :: j in old(ipStates) ==> unchanged(ipStates[j])
      ensures Apart()
    {
      assert state.activeTransactions.Values == {} && state.unknownEventGroups.Values == {};
    }

    /** Work on one register leaves all others as they were. */
    twostate lemma OthersUntouched(ip: string)
      requires old(Objects()) && ipStates == old(ipStates) && ip in ipStates && ipStates[ip].Valid()
      requires forall j :: j in ipStates && j != ip ==> unchanged(ipStates[j])
      requires forall j, o :: j in ipStates && j != ip && o in ipStates[j].activeTransactions.Values ==> unchanged(o)
      requires forall j, o :: j in ipStates && j != ip && o in ipStates[j].unknownEventGroups.Values ==> unchanged(o)
      requires fresh(ipStates[ip].activeTransactions.Values - old(ipStates[ip].activeTransactions.Values))
      requires fresh(ipStates[ip].unknownEventGroups.Values - old(ipStates[ip].unknownEventGroups.Values))
      ensures Objects()
      ensures forall j :: j in ipStates && j != ip ==> ipStates[j].View() == old(ipStates[j].View())
    {
      forall j | j in ipStates && j != ip
        ensures ipStates[j].Valid() && ipStates[j].View() == old(ipStates[j].View())
      {
        OneUntouched(ipStates[j]);
      }
    }

    twostate lemma OneUntouched(ipState: IPState)
      requires old(ipState.Valid()) && unchanged(ipState)
      requires forall o :: o in ipState.activeTransactions.Values ==> unchanged(o)
      requires forall o :: o in ipState.unknownEventGroups.Values ==> unchanged(o)
      ensures ipState.Valid() && ipState.View() == old(ipState.View())
    {
    }

    method ProcessAt(registerIP: string, ipState: IPState, data: Event, clock: Clock) returns (ghost choice: Choice)
      requires Objects() && registerIP in ipStates && ipStates[registerIP] == ipState
      modifies this`ns91Queue, this`ns92Queue, ipState,
               ipState.activeTransactions.Values, ipState.unknownEventGroups.Values
      ensures Objects()
      ensures ValidChoice(old(ipState.View()), Input(data, clock, Fanout(registerIP), choice))
      ensures ipState.View() == Step(old(ipState.View()), Input(data, clock, Fanout(registerIP), choice))
      ensures Offered91(old(ns91Queue), old(ipState.View()).closings, ns91Queue, ipState.View().closings)
      ensures Offered92(old(ns92Queue), old(ipState.View()).ns92, ns92Queue, ipState.View().ns92)
      ensures forall ip :: ip in ipStates && ip != registerIP ==> ipStates[ip].View() == old(ipStates[ip].View())
    {
      hide Step, ValidChoice, Offered91, Offered92, Resolve, IPState.View, IPState.Valid;
      choice := ProcessLocked(ipState, data, clock);
      OthersUntouched(registerIP);
    }

    twostate lemma ViewAfter(ip: string)
      requires ip in ipStates && ipStates == old(ipStates)[ip := ipStates[ip]]
      requires forall j :: j in old(ipStates) && j != ip ==> ipStates[j].View() == old(ipStates[j].View())
      ensures View() == Machine(old(View()).registers[ip := ipStates[ip].View()], ns91Queue, ns92Queue)
    {
      hide IPState.View;
    }

    lemma BeforeAgrees(ip: string, clock: Clock)
      ensures forall input: Input :: input.clock == clock ==>
                Interleaving.Before(View(), Message(ip, input)) == Before(ip, clock)
      ensures View().ns91 == ns91Queue && View().ns92 == ns92Queue
    {
      hide IPState.View, Fresh;
      assert ip in ipStates ==> View().registers[ip] == ipStates[ip].View();
    }

    /** The work on the objects for one decoded event. */
    method ProcessRegister(registerIP: string, data: Event, clock: Clock) returns (ghost choice: Choice)
      requires Objects()
      modifies this`ipStates, this`ns91Queue, this`ns92Queue, ipStates.Values
      modifies set s, o | s in ipStates.Values && o in s.activeTransactions.Values :: o
      modifies set s, o | s in ipStates.Values && o in s.unknownEventGroups.Values :: o
      ensures Objects()
      ensures registerIP in ipStates && ipStates == old(ipStates)[registerIP := ipStates[registerIP]]
      ensures registerIP in old(ipStates) ==> ipStates[registerIP] == old(ipStates[registerIP])
      ensures ValidChoice(old(Before(registerIP, clock)), Input(data, clock, Fanout(registerIP), choice))
      ensures ipStates[registerIP].View() ==
              Step(old(Before(registerIP, clock)), Input(data, clock, Fanout(registerIP), choice))
      ensures Offered91(old(ns91Queue), old(Before(registerIP, clock)).closings,
                        ns91Queue, ipStates[registerIP].View().closings)
      ensures Offered92(old(ns92Queue), old(Before(registerIP, clock)).ns92,
                        ns92Queue, ipStates[registerIP].View().ns92)
      ensures View() == Machine(old(View()).registers[registerIP := ipStates[registerIP].View()], ns91Queue, ns92Queue)
      ensures forall ip :: ip in old(ipStates) && ip != registerIP ==>
                ipStates[ip].View() == old(ipStates[ip].View())
    {
      hide Step, ValidChoice, Offered91, Offered92, Resolve, IPState.View, IPState.Valid, Fresh;
      hide IPState.StateView, IPState.ActiveView, IPState.GroupsView, POSTransactionState.View, UnknownEventGroup.View;
      hide Objects, View;
      var ipState := GetOrCreateIPState(registerIP, clock.arrival);
      choice := ProcessAt(registerIP, ipState, data, clock);
      ViewAfter(registerIP);
    }

    /** Processes one decoded event. */
    method ProcessDecoded(registerIP: string, data: Event, clock: Clock) returns (ghost choice: Choice)
      requires Valid()
      modifies this`ipStates, this`ns91Queue, this`ns92Queue, this`received, ipStates.Values
      modifies set s, o | s in ipStates.Values && o in s.activeTransactions.Values :: o
      modifies set s, o | s in ipStates.Values && o in s.unknownEventGroups.Values :: o
      ensures Valid()
      ensures registerIP in ipStates && ipStates == old(ipStates)[registerIP := ipStates[registerIP]]
      ensures registerIP in old(ipStates) ==> ipStates[registerIP] == old(ipStates[registerIP])
      ensures received == old(received) + [Message(registerIP, Input(data, clock, Fanout(registerIP), choice))]
      ensures ValidChoice(old(Before(registerIP, clock)), Input(data, clock, Fanout(registerIP), choice))
      ensures ipStates[registerIP].View() ==
              Step(old(Before(registerIP, clock)), Input(data, clock, Fanout(registerIP), choice))
      ensures Offered91(old(ns91Queue), old(Before(registerIP, clock)).closings,
                        ns91Queue, ipStates[registerIP].View().closings)
      ensures Offered92(old(ns92Queue), old(Before(registerIP, clock)).ns92,
                        ns92Queue, ipStates[registerIP].View().ns92)
      ensures forall ip :: ip in old(ipStates) && ip != registerIP ==>
                ipStates[ip].View() == old(ipStates[ip].View())
    {
      hide Step, ValidChoice, Offered91, Offered92, Resolve, IPState.View, Fresh, Objects, MachineRun, ValidMessages;
      ghost var m := View();
      BeforeAgrees(registerIP, clock);
      hide View;
      choice := ProcessRegister(registerIP, data, clock);
      ghost var message := Message(registerIP, Input(data, clock, Fanout(registerIP), choice));
      RecordStep(m, received, message, View());
      received := received + [message];
    }

    /** Processes one raw message; `None` is a body that does not decode to a
        map; the body `null` decodes to the empty one. */
    method ProcessEvent(registerIP: string, eventData: Option<Event>, clock: Clock)
      returns (ok: bool, ghost choice: Choice)
      requires Valid()
      modifies this`ipStates, this`ns91Queue, this`ns92Queue, this`received, ipStates.Values
      modifies set s, o | s in ipStates.Values && o in s.activeTransactions.Values :: o
      modifies set s, o | s in ipStates.Values && o in s.unknownEventGroups.Values :: o
      ensures Valid()
      ensures ok <==> eventData.Some?
      ensures !ok ==> ipStates == old(ipStates) && ns91Queue == old(ns91Queue) && ns92Queue == old(ns92Queue)
      ensures !ok ==> forall ip :: ip in ipStates ==> ipStates[ip].View() == old(ipStates[ip].View())
      ensures ok ==> registerIP in ipStates && ipStates == old(ipStates)[registerIP := ipStates[registerIP]]
      ensures received == old(received) +
                if ok then [Message(registerIP, Input(eventData.value, clock, Fanout(registerIP), choice))] else []
      ensures ok ==> ValidChoice(old(Before(registerIP, clock)),
                                 Input(eventData.value, clock, Fanout(registerIP), choice))
      ensures ok ==> ipStates[registerIP].View() ==
                     Step(old(Before(registerIP, clock)), Input(eventData.value, clock, Fanout(registerIP), choice))
      ensures ok ==> Offered91(old(ns91Queue), old(Before(registerIP, clock)).closings,
                               ns91Queue, ipStates[registerIP].View().closings)
      ensures ok ==> Offered92(old(ns92Queue), old(Before(registerIP, clock)).ns92,
                               ns92Queue, ipStates[registerIP].View().ns92)
      ensures ok ==> forall ip :: ip in old(ipStates) && ip != registerIP ==>
                       ipStates[ip].View() == old(ipStates[ip].View())
    {
      hide Step, ValidChoice, Offered91, Offered92, Resolve, IPState.View, IPState.Valid, Fresh, Valid;
      if eventData.None? {
        return false, Choice([], [], Dispatching("", [], []));
      }
      choice := ProcessDecoded(registerIP, eventData.value, clock);
      ok := true;
    }
  }
}
