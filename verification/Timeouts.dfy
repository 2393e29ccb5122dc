/** What the two sweeps guarantee about time. */
module Timeouts {
  import opened Collections
  import opened Payload
  import opened Register
  import opened Sweeps
  import opened Transactions
  import opened Invariants

  // ----- active transactions -----

  /** Recent enough to survive a sweep at `now`. */
  predicate InTime(tx: Transaction, now: nat) {
    tx.lastActivity + 60 * SECOND >= now && (tx.cartEnd.Some? ==> tx.cartEnd.value + 10 * SECOND >= now)
  }

  lemma SweepLeavesInTime(t: Trace, input: Input)
    requires Inv(t) && ValidChoice(t, input)
    ensures forall k :: k in Sweep(t, input).state.active ==>
              InTime(Sweep(t, input).state.active[k], input.clock.transactionSweep)
  {
    var flushed := FlushGroups(t, input.choice.staleGroups, input.esns);
    FlushGroupsState(t, input.choice.staleGroups, input.esns);
    TimeOutsState(flushed, input.choice.timedOut, input.clock.transactionSweep, input.esns);
    hide TransactionOk, GroupsOk, ClosingsOk, StartsOk, FlushGroups, TimeOuts, ValidDispatch;
    forall k | k in t.state.active && k !in input.choice.timedOut
      ensures InTime(t.state.active[k], input.clock.transactionSweep)
    {
      NotComplete(t.state.active[k], k, t.state.registerIP);
      assert k !in TimedOuts(t.state, input.clock.transactionSweep);
    }
  }

  lemma NotComplete(tx: Transaction, key: string, ip: string)
    requires TransactionOk(tx, key, ip)
    ensures !tx.isComplete
  {
  }

  lemma ReceiveInTime(tx: Transaction, a: Arrival, esns: seq<string>, sweep: nat)
    requires sweep <= a.clock.now <= a.clock.cartEnd
    ensures InTime(Receive(tx, a, esns), sweep)
  {
    ReceiveKeepsFields(tx, a, esns);
    hide Receive, IsCartEnd;
  }

  /** After an event, every active transaction was active within 60 seconds of
      the sweep, and every running end-of-cart timer within 10. */
  lemma ActiveInTime(t: Trace, input: Input)
    requires Inv(t) && ValidChoice(t, input) && input.clock.Ordered()
    ensures forall k :: k in Step(t, input).state.active ==>
              InTime(Step(t, input).state.active[k], input.clock.transactionSweep)
  {
    hide Inv, Sweep, InTime, IsStartDemarcator, IsEndDemarcator, HandleStart, HandleEnd, Route, FlushGroup,
         ValidChoice, Receive, NewEtags, Collect, GroupFor, GroupComplete;
    SweepLeavesInTime(t, input);
    StepInv(t, input);
    if !IsDemarcator(input.event) {
      var prepared, a := Prepare(t, input), NextArrival(t, input);
      var route := Route(prepared.state, a.event, input.choice.dispatch.latest);
      if route.Some? {
        ReceiveInTime(Target(prepared.state, route.value, a.clock.now), a, input.esns, input.clock.transactionSweep);
      } else {
        HandleUnknownActive(prepared, a, input.esns);
      }
    }
  }

  /** In every run: the end-of-cart timer runs exactly when the last event routed
      to the transaction reported the end of the cart. */
  lemma TimerIffCartEndLast(ip: string, created: nat, inputs: seq<Input>, txn: string)
    requires ValidRun(Fresh(ip, created), inputs) && txn in Run(Fresh(ip, created), inputs).state.active
    ensures var tx := Run(Fresh(ip, created), inputs).state.active[txn];
            tx.routed != [] && (tx.cartEnd.Some? <==> IsCartEnd(Last(tx.routed).event))
  {
    RunInv(ip, created, inputs);
    hide Run, IsCartEnd;
    TimerOf(Run(Fresh(ip, created), inputs).state.active[txn], txn, Run(Fresh(ip, created), inputs).state.registerIP);
  }

  lemma TimerOf(tx: Transaction, key: string, ip: string)
    requires TransactionOk(tx, key, ip)
    ensures tx.routed != [] && (tx.cartEnd.Some? <==> IsCartEnd(Last(tx.routed).event))
  {
    hide IsCartEnd;
  }
}
