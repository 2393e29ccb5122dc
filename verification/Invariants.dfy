/** What holds of every register after every run. */
module Invariants {
  import opened Collections
  import opened Payload
  import opened Register
  import opened Sweeps
  import opened Transactions

  // ----- the invariant -----

  ghost predicate TransactionOk(tx: Transaction, key: string, ip: string) {
    Sound(tx) && tx.routed != [] && tx.transactionSeq == key && tx.registerIP == ip &&
    key != "" && TransactionSeqOf(tx.routed[0].event) == key &&
    forall a :: a in tx.routed ==> BelongsTo(a.event, key)
  }

  /** The event carries this number or none. */
  predicate BelongsTo(e: Event, key: string) {
    TransactionSeqOf(e) == "" || TransactionSeqOf(e) == key
  }

  function EventsOf(routed: seq<Arrival>): seq<Event> {
    seq(|routed|, i requires 0 <= i < |routed| => routed[i].event)
  }

  /** A group holds the events of one 30-second window, in arrival order. */
  ghost predicate GroupOk(g: Group, key: nat, ip: string) {
    g.registerIP == ip && g.windowKey == key && g.routed != [] && g.events == EventsOf(g.routed) &&
    g.firstSeen == g.routed[0].clock.now && g.lastActivity == Last(g.routed).clock.now &&
    forall a :: a in g.routed ==>
      Window(a.clock.now) == key && !IsDemarcator(a.event) && TransactionSeqOf(a.event) == ""
  }

  /** The record of a completed transaction before EndTransaction marked it. */
  function Unmarked(tx: Transaction): Transaction {
    tx.(isComplete := false, endCmd := "")
  }

  ghost predicate ClosingOk(c: Closing, ip: string) {
    var tx := c.transaction;
    tx.registerIP == ip &&
    match c.cause
    case UnknownFlush =>
      c.requested == Some(Unknown) && exists g, key :: GroupOk(g, key, ip) && tx == GroupTransaction(g)
    case EndSeenLatest =>
      TransactionOk(Unmarked(tx), tx.transactionSeq, ip) &&
      c.requested == (if tx.hasStartTriad then None else Some(Abandoned)) &&
      tx.isComplete == tx.hasStartTriad && tx.endCmd == (if tx.hasStartTriad then "EndTransaction" else "")
    case CartEndSilence =>
      TransactionOk(tx, tx.transactionSeq, ip) && c.requested == None && tx.cartEnd.Some?
    case GeneralTimeout =>
      TransactionOk(tx, tx.transactionSeq, ip) && c.requested == Some(Abandoned) &&
      (tx.cartEnd.Some? ==> tx.cartEnd.value > tx.lastActivity + 50 * SECOND)
    case _ =>
      TransactionOk(tx, tx.transactionSeq, ip) && c.requested == Some(Abandoned)
  }

  ghost predicate ActiveOk(s: State) {
    forall k :: k in s.active ==> TransactionOk(s.active[k], k, s.registerIP)
  }

  ghost predicate GroupsOk(s: State) {
    forall k :: k in s.groups ==> GroupOk(s.groups[k], k, s.registerIP) && !GroupComplete(s.groups[k])
  }

  ghost predicate ClosingsOk(t: Trace) {
    forall i :: 0 <= i < |t.closings| ==> ClosingOk(t.closings[i], t.state.registerIP)
  }

  /** A pending start means no transaction is active; at most one holds a command. */
  ghost predicate StartsOk(s: State) {
    (s.pendingStart.Some? ==> s.active == map[]) &&
    forall j, k :: j in s.active && k in s.active && s.active[j].cmd.Some? && s.active[k].cmd.Some? ==> j == k
  }

  ghost predicate Inv(t: Trace) {
    ActiveOk(t.state) && GroupsOk(t.state) && ClosingsOk(t) && StartsOk(t.state)
  }

  lemma FreshInv(ip: string, created: nat)
    ensures Inv(Fresh(ip, created))
  {
  }

  // ----- closing keeps it -----

  lemma CloseInv(t: Trace, txn: string, requested: Option<Status>, cause: Cause, esns: seq<string>)
    requires Inv(t)
    requires txn in t.state.active ==>
               ClosingOk(Closing(t.state.active[txn], requested, cause, esns), t.state.registerIP)
    ensures Inv(CloseTransaction(t, txn, requested, cause, esns))
  {
    hide TransactionOk, GroupOk, GroupComplete, ClosingOk;
  }

  lemma FlushInv(t: Trace, key: nat, esns: seq<string>)
    requires Inv(t)
    ensures Inv(FlushGroup(t, key, esns))
  {
    hide TransactionOk, GroupOk, GroupComplete;
    if key in t.state.groups {
      var g := t.state.groups[key];
      assert GroupOk(g, key, t.state.registerIP) && g.registerIP == t.state.registerIP by {
        GroupIp(g, key, t.state.registerIP);
      }
      var c := Closing(GroupTransaction(g), Some(Unknown), UnknownFlush, esns);
      assert ClosingOk(c, t.state.registerIP);
      hide ClosingOk, GroupTransaction;
    }
  }

  lemma GroupIp(g: Group, key: nat, ip: string)
    requires GroupOk(g, key, ip)
    ensures g.registerIP == ip
  {
  }

  lemma {:induction false} FlushGroupsInv(t: Trace, keys: seq<nat>, esns: seq<string>)
    requires Inv(t)
    ensures Inv(FlushGroups(t, keys, esns))
  {
    hide Inv, FlushGroup;
    if keys == [] {
    } else {
      FlushGroupsInv(t, Front(keys), esns);
      FlushInv(FlushGroups(t, Front(keys), esns), Last(keys), esns);
    }
  }

  lemma TimeOutInv(t: Trace, txn: string, now: nat, esns: seq<string>)
    requires Inv(t) && (txn in t.state.active ==> TimedOut(t.state.active[txn], now))
    ensures Inv(TimeOut(t, txn, now, esns))
  {
    if txn in t.state.active {
      var tx := t.state.active[txn];
      assert TransactionOk(tx, txn, t.state.registerIP);
      CloseInv(t, txn, TimeoutStatus(tx, now), TimeoutCause(tx, now), esns);
    }
  }

  lemma {:induction false} TimeOutsInv(t: Trace, txns: seq<string>, now: nat, esns: seq<string>)
    requires Inv(t)
    requires forall k :: k in txns && k in t.state.active ==> TimedOut(t.state.active[k], now)
    ensures Inv(TimeOuts(t, txns, now, esns))
  {
    hide Inv, TimeOut, TimedOut;
    if txns == [] {
    } else {
      TimeOutsInv(t, Front(txns), now, esns);
      TimeOutsState(t, Front(txns), now, esns);
      TimeOutInv(TimeOuts(t, Front(txns), now, esns), Last(txns), now, esns);
    }
  }

  lemma {:induction false} AbandonInv(t: Trace, txns: seq<string>, cause: Cause, esns: seq<string>)
    requires Inv(t) && (cause == StartSeen || cause == EndSeenOther)
    ensures Inv(Abandon(t, txns, cause, esns))
  {
    hide TransactionOk, GroupsOk, ClosingsOk, StartsOk;
    if txns == [] {
    } else {
      AbandonInv(t, Front(txns), cause, esns);
      var before := Abandon(t, Front(txns), cause, esns);
      var txn := Last(txns);
      if txn in before.state.active {
        assert TransactionOk(before.state.active[txn], txn, before.state.registerIP);
        TransactionKey(before.state.active[txn], txn, before.state.registerIP);
      }
      CloseInv(before, txn, Some(Abandoned), cause, esns);
    }
  }

  lemma TransactionKey(tx: Transaction, key: string, ip: string)
    requires TransactionOk(tx, key, ip)
    ensures tx.transactionSeq == key && tx.registerIP == ip
  {
  }

  // ----- the handlers keep it -----

  lemma HandleStartInv(t: Trace, now: nat, order: seq<string>, esns: seq<string>)
    requires Inv(t) && Enumerates(order, t.state.active.Keys)
    ensures Inv(HandleStart(t, now, order, esns)) && HandleStart(t, now, order, esns).state.active == map[]
  {
    AbandonInv(t, order, StartSeen, esns);
    AbandonState(t, order, StartSeen, esns);
    assert t.state.active - Elements(order) == map[];
    hide TransactionOk, GroupOk, GroupComplete, ClosingOk;
  }

  /** No active transaction is complete, so an end demarcator abandons all but the latest. */
  lemma OthersIsAllButLatest(t: Trace, latest: string)
    requires Inv(t)
    ensures Others(t.state, latest) == t.state.active.Keys - {latest}
  {
    forall k | k in t.state.active ensures !t.state.active[k].isComplete {
      assert TransactionOk(t.state.active[k], k, t.state.registerIP);
    }
  }

  /** The record an end demarcator sends for the latest transaction. */
  function EndClosing(tx: Transaction, esns: seq<string>): Closing {
    Closing(if tx.hasStartTriad then tx.(isComplete := true, endCmd := "EndTransaction") else tx,
            if tx.hasStartTriad then None else Some(Abandoned), EndSeenLatest, esns)
  }

  lemma EndClosingOk(tx: Transaction, latest: string, ip: string, esns: seq<string>)
    requires TransactionOk(tx, latest, ip)
    ensures ClosingOk(EndClosing(tx, esns), ip)
    ensures !tx.ns91Sent && tx.individualNs92Allowed == tx.hasStartTriad
  {
    var c := EndClosing(tx, esns);
    assert Unmarked(c.transaction) == tx;
    hide TimesSound, NumbersSound, TriadAt, Stream, LastMeta, LastHeader, OtherEvents, CartTimer, PendingEvents;
  }

  lemma EndLatestInv(t: Trace, latest: string, e: Event, esns: seq<string>)
    requires Inv(t) && IsEndDemarcator(e)
    ensures Inv(EndLatest(t, latest, e, esns))
    ensures EndLatest(t, latest, e, esns).state == t.state.(active := t.state.active - {latest})
  {
    hide TransactionOk, GroupOk, GroupComplete, ClosingOk, IsEndDemarcator, EndClosing;
    if latest in t.state.active {
      EndClosingOk(t.state.active[latest], latest, t.state.registerIP, esns);
      EndLatestIs(t, latest, e, esns);
      hide EndLatest;
    } else {
      assert t.state.active - {latest} == t.state.active;
    }
  }

  lemma EndLatestIs(t: Trace, latest: string, e: Event, esns: seq<string>)
    requires IsEndDemarcator(e) && latest in t.state.active && !t.state.active[latest].ns91Sent
    requires t.state.active[latest].individualNs92Allowed == t.state.active[latest].hasStartTriad
    ensures EndLatest(t, latest, e, esns) ==
            t.(state := t.state.(active := t.state.active - {latest}),
               closings := t.closings + [EndClosing(t.state.active[latest], esns)])
  {
    var tx := t.state.active[latest];
    assert StringAt(e, "CMD") == Some("EndTransaction");
    hide StringAt;
    assert t.state.active[latest := tx.(isComplete := true, endCmd := "EndTransaction")] - {latest}
           == t.state.active - {latest};
  }

  lemma DropPendingStartInv(t: Trace)
    requires Inv(t)
    ensures Inv(DropPendingStart(t))
  {
    hide TransactionOk, GroupOk, GroupComplete, ClosingOk;
  }

  lemma HandleEndInv(t: Trace, e: Event, choice: Dispatching, esns: seq<string>)
    requires Inv(t) && IsEndDemarcator(e)
    requires t.state.active == map[] ==> Enumerates(choice.flushed, t.state.groups.Keys)
    requires t.state.active != map[] ==>
               IsLatest(t.state.active, choice.latest) && Enumerates(choice.abandoned, Others(t.state, choice.latest))
    ensures Inv(HandleEnd(t, e, choice, esns)) && HandleEnd(t, e, choice, esns).state.active == map[]
  {
    hide Inv;
    if t.state.active == map[] {
      FlushGroupsInv(t, choice.flushed, esns);
      FlushGroupsState(t, choice.flushed, esns);
      DropPendingStartInv(FlushGroups(t, choice.flushed, esns));
    } else {
      var closed := Abandon(t, choice.abandoned, EndSeenOther, esns);
      AbandonInv(t, choice.abandoned, EndSeenOther, esns);
      AbandonState(t, choice.abandoned, EndSeenOther, esns);
      OthersIsAllButLatest(t, choice.latest);
      DropPendingStartInv(closed);
      EndLatestInv(DropPendingStart(closed), choice.latest, e, esns);
      assert t.state.active - Elements(choice.abandoned) - {choice.latest} == map[];
    }
  }

  lemma ReceiveOk(tx: Transaction, key: string, ip: string, a: Arrival, esns: seq<string>)
    requires TransactionOk(tx, key, ip) && !IsDemarcator(a.event) && BelongsTo(a.event, key)
    ensures TransactionOk(Receive(tx, a, esns), key, ip) && Receive(tx, a, esns).cmd == tx.cmd
  {
    ReceiveSound(tx, a, esns);
    ReceiveTimes(tx, a, esns);
    hide Receive, Sound;
  }

  lemma ReceiveFirstOk(ip: string, key: string, a: Arrival, cmd: Option<nat>, esns: seq<string>)
    requires key != "" && TransactionSeqOf(a.event) == key && !IsDemarcator(a.event)
    ensures var tx := NewTransaction(ip, key, a.clock.now, cmd);
            TransactionOk(Receive(tx, a, esns), key, ip) && Receive(tx, a, esns).cmd == cmd
  {
    var tx := NewTransaction(ip, key, a.clock.now, cmd);
    NewTransactionSound(ip, key, a.clock.now, cmd);
    ReceiveSound(tx, a, esns);
    ReceiveTimes(tx, a, esns);
    hide Receive, Sound;
  }

  lemma PutTransactionInv(t: Trace, txn: string, after: Transaction, pending: Option<nat>, ns92: seq<Etag>)
    requires Inv(t) && TransactionOk(after, txn, t.state.registerIP)
    requires if txn in t.state.active then after.cmd == t.state.active[txn].cmd && pending == t.state.pendingStart
             else after.cmd == t.state.pendingStart && pending == None
    ensures Inv(t.(state := t.state.(active := t.state.active[txn := after], pendingStart := pending), ns92 := ns92))
  {
    hide TransactionOk, GroupOk, GroupComplete, ClosingOk;
  }

  lemma HandleTransactionInv(t: Trace, txn: string, a: Arrival, esns: seq<string>)
    requires Inv(t) && !IsDemarcator(a.event) && BelongsTo(a.event, txn)
    requires txn !in t.state.active ==> txn != "" && TransactionSeqOf(a.event) == txn
    ensures Inv(HandleTransaction(t, txn, a, esns))
  {
    hide TransactionOk, GroupOk, GroupComplete, ClosingOk, Receive, NewEtags, Continues, NewTransaction,
         IsDemarcator, TransactionSeqOf;
    var before := Target(t.state, txn, a.clock.now);
    if txn in t.state.active {
      ReceiveOk(before, txn, t.state.registerIP, a, esns);
    } else {
      ReceiveFirstOk(t.state.registerIP, txn, a, t.state.pendingStart, esns);
    }
    ReceiveContinues(before, a, esns);
    hide Inv;
    PutTransactionInv(t, txn, Receive(before, a, esns),
                      if txn in t.state.active then t.state.pendingStart else None,
                      t.ns92 + NewEtags(before, Receive(before, a, esns)));
  }

  lemma CollectOk(s: State, a: Arrival)
    requires GroupsOk(s) && !IsDemarcator(a.event) && TransactionSeqOf(a.event) == ""
    ensures var key := Window(a.clock.now);
            GroupOk(Collect(GroupFor(s, key, a.clock.now), a), key, s.registerIP)
  {
    hide GroupComplete, IsDemarcator, TransactionSeqOf, Window;
    var key := Window(a.clock.now);
    var g := GroupFor(s, key, a.clock.now);
    assert EventsOf(g.routed + [a]) == EventsOf(g.routed) + [a.event];
  }

  lemma GroupClosingOk(g: Group, key: nat, ip: string, esns: seq<string>)
    requires GroupOk(g, key, ip)
    ensures ClosingOk(Closing(GroupTransaction(g), Some(Unknown), UnknownFlush, esns), ip)
  {
  }

  lemma PutGroupInv(t: Trace, key: nat, g: Group, esns: seq<string>)
    requires Inv(t) && GroupOk(g, key, t.state.registerIP)
    ensures var stored := t.(state := t.state.(groups := t.state.groups[key := g]));
            Inv(if GroupComplete(g) then FlushGroup(stored, key, esns) else stored)
  {
    hide TransactionOk, GroupOk, GroupComplete, ClosingOk, GroupTransaction;
    if GroupComplete(g) {
      FlushNewGroupInv(t, key, g, esns);
      hide Inv;
    }
  }

  lemma FlushNewGroupInv(t: Trace, key: nat, g: Group, esns: seq<string>)
    requires Inv(t) && GroupOk(g, key, t.state.registerIP)
    ensures Inv(FlushGroup(t.(state := t.state.(groups := t.state.groups[key := g])), key, esns))
  {
    GroupClosingOk(g, key, t.state.registerIP, esns);
    hide TransactionOk, GroupOk, GroupComplete, ClosingOk, GroupTransaction;
  }

  lemma HandleUnknownInv(t: Trace, a: Arrival, esns: seq<string>)
    requires Inv(t) && !IsDemarcator(a.event) && TransactionSeqOf(a.event) == ""
    ensures Inv(HandleUnknown(t, a, esns))
  {
    hide IsDemarcator, TransactionSeqOf, GroupOk, TransactionOk, ClosingOk, GroupComplete, Collect, GroupFor, Window;
    var key := Window(a.clock.now);
    CollectOk(t.state, a);
    hide Inv, FlushGroup;
    PutGroupInv(t, key, Collect(GroupFor(t.state, key, a.clock.now), a), esns);
  }

  // ----- one step, every run -----

  lemma SweepInv(t: Trace, input: Input)
    requires Inv(t) && ValidChoice(t, input)
    ensures Inv(Sweep(t, input))
  {
    hide Inv, TimedOut;
    FlushGroupsInv(t, input.choice.staleGroups, input.esns);
    FlushGroupsState(t, input.choice.staleGroups, input.esns);
    TimeOutsInv(FlushGroups(t, input.choice.staleGroups, input.esns), input.choice.timedOut,
                input.clock.transactionSweep, input.esns);
  }

  lemma ArriveInv(t: Trace, a: Arrival)
    requires Inv(t)
    ensures Inv(Arrive(t, a))
  {
    hide TransactionOk, GroupOk, GroupComplete, ClosingOk;
  }

  lemma StepInv(t: Trace, input: Input)
    requires Inv(t) && ValidChoice(t, input)
    ensures Inv(Step(t, input))
    ensures IsDemarcator(input.event) ==> Step(t, input).state.active == map[]
  {
    SweepInv(t, input);
    ArriveInv(Sweep(t, input), NextArrival(t, input));
    var prepared, a := Prepare(t, input), NextArrival(t, input);
    var d := input.choice.dispatch;
    hide Inv, Sweep, TransactionSeqOf, IsStartDemarcator, IsEndDemarcator, HandleStart, HandleEnd,
         HandleTransaction, HandleUnknown;
    if IsStartDemarcator(a.event) {
      HandleStartInv(prepared, a.clock.now, d.abandoned, input.esns);
    } else if IsEndDemarcator(a.event) {
      HandleEndInv(prepared, a.event, d, input.esns);
    } else {
      var route := Route(prepared.state, a.event, d.latest);
      if route.Some? {
        HandleTransactionInv(prepared, route.value, a, input.esns);
      } else {
        HandleUnknownInv(prepared, a, input.esns);
      }
    }
  }

  lemma {:induction false} RunInv(ip: string, created: nat, inputs: seq<Input>)
    requires ValidRun(Fresh(ip, created), inputs)
    ensures Inv(Run(Fresh(ip, created), inputs))
  {
    hide Inv, Step, ValidChoice, Fresh;
    if inputs == [] {
      FreshInv(ip, created);
    } else {
      RunInv(ip, created, Front(inputs));
      StepInv(Run(Fresh(ip, created), Front(inputs)), Last(inputs));
    }
  }
}
