/** When the general timeout abandons a transaction whose end-of-cart timer runs. */
module Abandonment {
  import opened Collections
  import opened Payload
  import opened Register
  import opened Sweeps
  import opened Transactions
  import opened Invariants

  // ----- one record -----

  /** The time between the two readings made for the cart event exceeds what the
      general timeout allows more than the timer, and the time is not over. */
  predicate LateTimer(clock: Clock, from: nat) {
    clock.cartEnd > clock.now + 50 * SECOND && clock.cartEnd + 10 * SECOND >= from
  }

  /** A record with a running timer can be abandoned by a sweep not before `from`
      exactly when the timer outlives 60 seconds of silence and `from`. */
  lemma GeneralTimeoutIff(tx: Transaction, from: nat)
    requires tx.cartEnd.Some? && !tx.isComplete
    ensures (exists s: nat :: s >= from && TimedOut(tx, s) && TimeoutCause(tx, s) == GeneralTimeout) <==>
            tx.cartEnd.value > tx.lastActivity + 50 * SECOND && tx.cartEnd.value + 10 * SECOND >= from
  {
    var s := tx.cartEnd.value + 10 * SECOND;
    if tx.cartEnd.value > tx.lastActivity + 50 * SECOND && s >= from {
      assert TimedOut(tx, s) && TimeoutCause(tx, s) == GeneralTimeout;
    }
  }

  /** What a sound record knows of the readings made for its last event. */
  lemma TimerReadings(tx: Transaction, key: string, ip: string)
    requires TransactionOk(tx, key, ip) && tx.cartEnd.Some?
    ensures tx.routed != [] && !tx.isComplete
    ensures var clock := Last(tx.routed).clock; tx.cartEnd.value == clock.cartEnd && tx.lastActivity == clock.now
  {
    hide IsCartEnd;
  }

  // ----- which closings a step adds -----

  predicate TimedAt(c: Closing, now: nat) {
    c.cause == GeneralTimeout ==> TimedOut(c.transaction, now) && TimeoutCause(c.transaction, now) == GeneralTimeout
  }

  /** Closings by the general timeout were due at the sweep. */
  ghost predicate AddsTimed(t: Trace, u: Trace, now: nat) {
    Adds(t, u, c => TimedAt(c, now))
  }

  lemma StepTimed(t: Trace, input: Input)
    requires ValidChoice(t, input)
    ensures AddsTimed(t, Step(t, input), input.clock.transactionSweep)
  {
    var now := input.clock.transactionSweep;
    assert forall k :: k in input.choice.timedOut ==> k in TimedOuts(t.state, now);
    hide TimedOut, TimeoutCause, Prepare, Dispatch, ValidDispatch;
    StepAdds(t, input, c => TimedAt(c, now));
  }

  // ----- a step that abandons -----

  /** The step closes the record by the general timeout. */
  ghost predicate Abandons(t: Trace, u: Trace, tx: Transaction) {
    exists i :: |t.closings| <= i < |u.closings| &&
                u.closings[i].cause == GeneralTimeout && u.closings[i].transaction == tx
  }

  lemma {:induction false} TimeOutsClose(t: Trace, txns: seq<string>, now: nat, esns: seq<string>, txn: string)
    requires NoDuplicates(txns) && txn in txns && txn in t.state.active
    requires TimeoutCause(t.state.active[txn], now) == GeneralTimeout
    ensures Abandons(t, TimeOuts(t, txns, now, esns), t.state.active[txn])
  {
    hide TimeoutCause, TimeoutStatus;
    var front, before := Front(txns), TimeOuts(t, Front(txns), now, esns);
    TimeOutsState(t, front, now, esns);
    TimeOutsExtends(t, front, now, esns);
    var after := TimeOuts(t, txns, now, esns);
    if txn == Last(txns) {
      assert txn !in Elements(front);
      assert after.closings[|before.closings|].transaction == t.state.active[txn];
    } else {
      TimeOutsClose(t, front, now, esns, txn);
      var i :| |t.closings| <= i < |before.closings| && before.closings[i].cause == GeneralTimeout &&
               before.closings[i].transaction == t.state.active[txn];
      assert after.closings[i] == before.closings[i];
    }
  }

  const START_EVENT: Event := map["CMD" := Str("StartTransaction")]

  /** Some start event with all its readings at `s` abandons whatever is due then. */
  lemma AbandoningStep(t: Trace, s: nat, txn: string) returns (next: Input)
    requires txn in t.state.active && TimedOut(t.state.active[txn], s)
    requires TimeoutCause(t.state.active[txn], s) == GeneralTimeout
    ensures ValidChoice(t, next) && next.clock == At(s) && Abandons(t, Step(t, next), t.state.active[txn])
  {
    hide TimedOut, TimeoutCause;
    var stale := SomeOrder(StaleGroups(t.state, s));
    var timedOut := SomeOrder(TimedOuts(t.state, s));
    var swept := Input(START_EVENT, At(s), [], Choice(stale, timedOut, Dispatching("", [], [])));
    var abandoned := SomeOrder(Prepare(t, swept).state.active.Keys);
    next := swept.(choice := Choice(stale, timedOut, Dispatching("", [], abandoned)));
    assert Prepare(t, next) == Prepare(t, swept);
    var flushed := FlushGroups(t, stale, []);
    FlushGroupsState(t, stale, []);
    FlushGroupsExtends(t, stale, []);
    TimeOutsClose(flushed, timedOut, s, [], txn);
    DispatchExtends(Prepare(t, next), NextArrival(t, next), next.choice.dispatch, []);
    assert IsStartDemarcator(START_EVENT);
    AbandonsLater(t, flushed, Prepare(t, next), Step(t, next), t.state.active[txn]);
  }

  lemma AbandonsLater(t: Trace, flushed: Trace, p: Trace, u: Trace, tx: Transaction)
    requires t.closings <= flushed.closings && p.closings <= u.closings && Abandons(flushed, p, tx)
    ensures Abandons(t, u, tx)
  {
    var i :| |flushed.closings| <= i < |p.closings| && p.closings[i].cause == GeneralTimeout &&
             p.closings[i].transaction == tx;
    assert u.closings[i] == p.closings[i];
  }

  // ----- every run -----

  /** A next event, not earlier than the last, whose sweep abandons the record. */
  ghost predicate CanBeAbandoned(start: Trace, inputs: seq<Input>, tx: Transaction)
    requires ValidRun(start, inputs)
  {
    exists next: Input ::
      ValidChoice(Run(start, inputs), next) && Monotone(inputs + [next]) &&
      Abandons(Run(start, inputs), Step(Run(start, inputs), next), tx)
  }

  /** In every run with a clock that never goes back: a transaction with a running
      timer can be abandoned by the general timeout of the next event if and only
      if the two readings made for its last event lie more than 50 seconds apart,
      and ten seconds after the second one are not over. */
  lemma AbandonedWhileTimedIff(ip: string, created: nat, inputs: seq<Input>, txn: string)
    requires ValidRun(Fresh(ip, created), inputs) && Monotone(inputs) && inputs != []
    requires var active := Run(Fresh(ip, created), inputs).state.active; txn in active && active[txn].cartEnd.Some?
    ensures var tx := Run(Fresh(ip, created), inputs).state.active[txn];
            tx.routed != [] &&
            (CanBeAbandoned(Fresh(ip, created), inputs, tx) <==>
               LateTimer(Last(tx.routed).clock, Last(inputs).clock.cartEnd))
  {
    hide Step, ValidChoice, TimedOut, TimeoutCause, TransactionOk, GroupsOk, ClosingsOk, StartsOk, Run, ValidRun,
         Fresh;
    RunInv(ip, created, inputs);
    var start, from := Fresh(ip, created), Last(inputs).clock.cartEnd;
    var t := Run(start, inputs);
    var tx := t.state.active[txn];
    TimerReadings(tx, txn, t.state.registerIP);
    GeneralTimeoutIff(tx, from);
    hide Inv, AddsTimed, Abandons, Monotone;
    if CanBeAbandoned(start, inputs, tx) {
      var next :| ValidChoice(t, next) && Monotone(inputs + [next]) && Abandons(t, Step(t, next), tx);
      StepTimed(t, next);
      MonotoneNext(inputs, next);
      AbandonedIsTimed(t, Step(t, next), tx, next.clock.transactionSweep);
    }
    if LateTimer(Last(tx.routed).clock, from) {
      var s: nat :| s >= from && TimedOut(tx, s) && TimeoutCause(tx, s) == GeneralTimeout;
      var next := AbandoningStep(t, s, txn);
      MonotoneNext(inputs, next);
    }
  }

  lemma AbandonedIsTimed(t: Trace, u: Trace, tx: Transaction, now: nat)
    requires AddsTimed(t, u, now) && Abandons(t, u, tx)
    ensures TimedOut(tx, now) && TimeoutCause(tx, now) == GeneralTimeout
  {
    hide TimedOut, TimeoutCause;
  }

  lemma MonotoneNext(inputs: seq<Input>, next: Input)
    requires Monotone(inputs) && inputs != []
    ensures Monotone(inputs + [next]) <==>
            next.clock.Ordered() && Last(inputs).clock.cartEnd <= next.clock.unknownSweep
  {
    var all := inputs + [next];
    assert all[|inputs|] == next && all[|inputs| - 1] == Last(inputs);
    assert forall i :: 0 <= i < |inputs| ==> all[i] == inputs[i];
  }

  /** In every run: a transaction with a running timer is abandoned by the general
      timeout only if more than 50 seconds passed between the two clock readings
      made for its last event. */
  lemma NoAbandonWhileTimed(ip: string, created: nat, inputs: seq<Input>, i: nat)
    requires ValidRun(Fresh(ip, created), inputs) && i < |Run(Fresh(ip, created), inputs).closings|
    ensures var c := Run(Fresh(ip, created), inputs).closings[i];
            c.cause == GeneralTimeout && c.transaction.cartEnd.Some? ==>
              c.transaction.routed != [] &&
              Last(c.transaction.routed).clock.cartEnd > Last(c.transaction.routed).clock.now + 50 * SECOND
  {
    RunInv(ip, created, inputs);
    var t := Run(Fresh(ip, created), inputs);
    hide Run;
    hide ClosingOk;
    if t.closings[i].cause == GeneralTimeout && t.closings[i].transaction.cartEnd.Some? {
      TimedClosing(t.closings[i], t.state.registerIP);
    }
  }

  lemma TimedClosing(c: Closing, ip: string)
    requires ClosingOk(c, ip) && c.cause == GeneralTimeout && c.transaction.cartEnd.Some?
    ensures c.transaction.routed != []
    ensures Last(c.transaction.routed).clock.cartEnd > Last(c.transaction.routed).clock.now + 50 * SECOND
  {
    hide IsCartEnd;
  }

  // ----- a run where it happens -----

  function OrderedInput(event: Event, clock: Clock, timedOut: seq<string>, latest: string): Input {
    Input(event, clock, [], Choice([], timedOut, Dispatching(latest, [], [])))
  }

  const OPENING_EVENT: Event := map["metaData" := Obj(map["transactionSeqNumber" := Str("1")])]
  const CART_END_EVENT: Event := map["cartChangeTrail" := Obj(map["eventResult" := Str("endOfTransaction")])]

  /** A transaction opens at 0; its cart ends at 0 by one reading of the clock and
      at 51 seconds by the next; a start event comes at 61 seconds. */
  const OPENING: Input := OrderedInput(OPENING_EVENT, At(0), [], "")
  const CART_END: Input := OrderedInput(CART_END_EVENT, Clock(0, 0, 0, 0, 51 * SECOND), [], "1")
  const NEXT_START: Input := OrderedInput(START_EVENT, At(61 * SECOND), ["1"], "")

  /** An event of transaction 1 while only that one may be there and nothing is due. */
  lemma OneTransactionStep(t: Trace, input: Input)
    requires input == OrderedInput(input.event, input.clock, [], input.choice.dispatch.latest)
    requires t.state.groups == map[] && t.state.active.Keys <= {"1"}
    requires forall k :: k in t.state.active ==> !TimedOut(t.state.active[k], input.clock.transactionSweep)
    requires !IsDemarcator(input.event) && Route(t.state, input.event, input.choice.dispatch.latest) == Some("1")
    ensures ValidChoice(t, input)
    ensures var s := Step(t, input).state;
            s.groups == map[] && s.active.Keys == {"1"} &&
            s.active["1"] == Receive(Target(t.state, "1", input.clock.now), NextArrival(t, input), [])
  {
    hide TimedOut, Receive, NewEtags, Continues, HandleStart, HandleEnd, HandleUnknown, TransactionSeqOf;
    assert FlushGroups(t, [], []) == t && TimeOuts(t, [], input.clock.transactionSweep, []) == t;
    assert StaleGroups(t.state, input.clock.unknownSweep) == {};
    assert TimedOuts(t.state, input.clock.transactionSweep) == {};
    var p := Prepare(t, input);
    assert p.state.active == t.state.active;
    assert t.state.active != map[] && input.choice.dispatch.latest == "1" ==>
             t.state.active.Keys == {"1"} && IsLatest(t.state.active, "1");
  }

  lemma OpeningIsMeta()
    ensures TransactionSeqOf(OPENING_EVENT) == "1" && !IsDemarcator(OPENING_EVENT)
    ensures TransactionSeqOf(CART_END_EVENT) == "" && !IsDemarcator(CART_END_EVENT) && IsCartEnd(CART_END_EVENT)
    ensures IsStartDemarcator(START_EVENT)
  {
    assert TrimSpace("1") == "1";
  }

  lemma OneTransactionTimesOut(t: Trace, s: nat)
    requires t.state.groups == map[] && t.state.active.Keys == {"1"}
    requires TimedOut(t.state.active["1"], s) && TimeoutCause(t.state.active["1"], s) == GeneralTimeout
    ensures var next := OrderedInput(START_EVENT, At(s), ["1"], "");
            ValidChoice(t, next) && Abandons(t, Step(t, next), t.state.active["1"])
  {
    hide TimedOut, TimeoutCause, TimeoutStatus;
    var next := OrderedInput(START_EVENT, At(s), ["1"], "");
    assert FlushGroups(t, [], []) == t;
    assert StaleGroups(t.state, s) == {} && TimedOuts(t.state, s) == {"1"};
    TimeOutsState(t, ["1"], s, []);
    assert Prepare(t, next).state.active == map[];
    TimeOutsClose(t, ["1"], s, [], "1");
    OpeningIsMeta();
    DispatchExtends(Prepare(t, next), NextArrival(t, next), next.choice.dispatch, []);
    AbandonsLater(t, t, Prepare(t, next), Step(t, next), t.state.active["1"]);
  }

  /** The record after the cart event. */
  lemma LateTimerState(ip: string)
    ensures var start := Fresh(ip, 0);
            ValidChoice(start, OPENING) && ValidChoice(Step(start, OPENING), CART_END) &&
            var s := Step(Step(start, OPENING), CART_END).state;
            s.groups == map[] && s.active.Keys == {"1"} && !s.active["1"].isComplete &&
            s.active["1"].lastActivity == 0 && s.active["1"].cartEnd == Some(51 * SECOND)
  {
    var start := Fresh(ip, 0);
    OpeningIsMeta();
    hide TransactionSeqOf, IsStartDemarcator, IsEndDemarcator;
    OneTransactionStep(start, OPENING);
    var t1 := Step(start, OPENING);
    ReceiveKeepsFields(Target(start.state, "1", 0), NextArrival(start, OPENING), []);
    assert IsMeta(OPENING_EVENT) && !IsCartEnd(OPENING_EVENT);
    hide Receive, Step, ValidChoice, IsCartEnd;
    assert t1.state.active["1"].lastActivity == 0 && t1.state.active["1"].cartEnd == None;
    assert !t1.state.active["1"].isComplete;
    OneTransactionStep(t1, CART_END);
    ReceiveKeepsFields(t1.state.active["1"], NextArrival(t1, CART_END), []);
  }

  lemma LateTimerMonotone()
    ensures Monotone([] + [OPENING] + [CART_END] + [NEXT_START])
  {
  }

  /** A valid run with a clock that never goes back abandons a transaction whose
      timer is running. */
  lemma LateTimerRun(ip: string)
    ensures var start, inputs := Fresh(ip, 0), [] + [OPENING] + [CART_END];
            ValidRun(start, inputs + [NEXT_START]) && Monotone(inputs + [NEXT_START]) && ValidRun(start, inputs) &&
            var t := Run(start, inputs);
            "1" in t.state.active && t.state.active["1"].cartEnd.Some? &&
            Abandons(t, Run(start, inputs + [NEXT_START]), t.state.active["1"])
  {
    var start := Fresh(ip, 0);
    LateTimerState(ip);
    var t2 := Step(Step(start, OPENING), CART_END);
    assert TimedOut(t2.state.active["1"], 61 * SECOND);
    OneTransactionTimesOut(t2, 61 * SECOND);
    LateTimerMonotone();
    assert Run(start, []) == start && ValidRun(start, []);
    hide Step, ValidChoice, Fresh, Abandons, TimedOut, Monotone, Run, ValidRun;
    RunSnoc(start, [], OPENING);
    RunSnoc(start, [] + [OPENING], CART_END);
    RunSnoc(start, [] + [OPENING] + [CART_END], NEXT_START);
  }
}
