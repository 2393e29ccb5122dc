/** Conservation of events: every event that is not a demarcator is in exactly
    one place for ever, and every place keeps arrival order. */
module Conservation {
  import opened Collections
  import opened Payload
  import opened Register
  import opened Sweeps
  import opened Transactions

  /** A place: an active transaction, a live unknown group, or the record of the
      i-th NS91. */
  datatype Holder = Live(txn: string) | Waiting(key: nat) | Closed(index: nat)

  function Held(t: Trace, h: Holder): seq<Arrival> {
    match h
    case Live(txn) => if txn in t.state.active then t.state.active[txn].routed else []
    case Waiting(key) => if key in t.state.groups then t.state.groups[key].routed else []
    case Closed(i) => if i < |t.closings| then t.closings[i].transaction.routed else []
  }

  ghost predicate Ascending(routed: seq<Arrival>) {
    forall i, j :: 0 <= i < j < |routed| ==> routed[i].ordinal < routed[j].ordinal
  }

  /** Every place holds entries of the log, none a demarcator, in arrival order. */
  ghost predicate FromLog(t: Trace) {
    forall h :: Ascending(Held(t, h)) &&
                forall a :: a in Held(t, h) ==>
                  a.ordinal < |t.log| && t.log[a.ordinal] == a && !IsDemarcator(a.event)
  }

  /** No event is in two places. */
  ghost predicate Exclusive(t: Trace) {
    forall h, h', a :: a in Held(t, h) && a in Held(t, h') ==> h == h'
  }

  ghost predicate HeldSomewhere(t: Trace, a: Arrival) {
    exists h :: a in Held(t, h)
  }

  /** No event is lost. */
  ghost predicate Complete(t: Trace) {
    forall i :: 0 <= i < |t.log| ==> !IsDemarcator(t.log[i].event) ==> HeldSomewhere(t, t.log[i])
  }

  ghost predicate Conserved(t: Trace) {
    FromLog(t) && Exclusive(t) && Complete(t)
  }

  // ----- closing moves a place -----

  /** `after` holds what `before` held, with place `from` renamed to `to`. */
  ghost predicate Moved(before: Trace, after: Trace, from: Holder, to: Holder) {
    after.log == before.log && Held(before, to) == [] &&
    forall h :: Held(after, h) == if h == to then Held(before, from) else if h == from then [] else Held(before, h)
  }

  lemma MoveConserves(before: Trace, after: Trace, from: Holder, to: Holder)
    requires Conserved(before) && Moved(before, after, from, to) && from != to
    ensures Conserved(after)
  {
    hide Held, IsDemarcator;
    forall i | 0 <= i < |after.log| && !IsDemarcator(after.log[i].event)
      ensures HeldSomewhere(after, after.log[i])
    {
      assert HeldSomewhere(before, before.log[i]);
      var h :| before.log[i] in Held(before, h);
      assert after.log[i] in Held(after, if h == from then to else h);
    }
  }

  lemma CloseMoves(t: Trace, txn: string, requested: Option<Status>, cause: Cause, esns: seq<string>)
    requires txn in t.state.active
    ensures Moved(t, CloseTransaction(t, txn, requested, cause, esns), Live(txn), Closed(|t.closings|))
  {
  }

  lemma FlushMoves(t: Trace, key: nat, esns: seq<string>)
    requires key in t.state.groups
    ensures Moved(t, FlushGroup(t, key, esns), Waiting(key), Closed(|t.closings|))
  {
  }

  lemma CloseConserves(t: Trace, txn: string, requested: Option<Status>, cause: Cause, esns: seq<string>)
    requires Conserved(t)
    ensures Conserved(CloseTransaction(t, txn, requested, cause, esns))
  {
    hide Conserved;
    if txn in t.state.active {
      CloseMoves(t, txn, requested, cause, esns);
      MoveConserves(t, CloseTransaction(t, txn, requested, cause, esns), Live(txn), Closed(|t.closings|));
    }
  }

  lemma FlushConserves(t: Trace, key: nat, esns: seq<string>)
    requires Conserved(t)
    ensures Conserved(FlushGroup(t, key, esns))
  {
    hide Conserved;
    if key in t.state.groups {
      FlushMoves(t, key, esns);
      MoveConserves(t, FlushGroup(t, key, esns), Waiting(key), Closed(|t.closings|));
    }
  }

  lemma {:induction false} FlushGroupsConserves(t: Trace, keys: seq<nat>, esns: seq<string>)
    requires Conserved(t)
    ensures Conserved(FlushGroups(t, keys, esns))
  {
    hide Conserved, FlushGroup;
    if keys == [] {
    } else {
      FlushGroupsConserves(t, Front(keys), esns);
      FlushConserves(FlushGroups(t, Front(keys), esns), Last(keys), esns);
    }
  }

  lemma {:induction false} TimeOutsConserves(t: Trace, txns: seq<string>, now: nat, esns: seq<string>)
    requires Conserved(t)
    ensures Conserved(TimeOuts(t, txns, now, esns))
  {
    hide Conserved, CloseTransaction;
    if txns == [] {
    } else {
      TimeOutsConserves(t, Front(txns), now, esns);
      var before := TimeOuts(t, Front(txns), now, esns);
      if Last(txns) in before.state.active {
        var tx := before.state.active[Last(txns)];
        CloseConserves(before, Last(txns), TimeoutStatus(tx, now), TimeoutCause(tx, now), esns);
      }
    }
  }

  lemma {:induction false} AbandonConserves(t: Trace, txns: seq<string>, cause: Cause, esns: seq<string>)
    requires Conserved(t)
    ensures Conserved(Abandon(t, txns, cause, esns))
  {
    hide Conserved, CloseTransaction;
    if txns == [] {
    } else {
      AbandonConserves(t, Front(txns), cause, esns);
      CloseConserves(Abandon(t, Front(txns), cause, esns), Last(txns), Some(Abandoned), cause, esns);
    }
  }

  /** What is held determines conservation. */
  lemma SameHeldConserves(before: Trace, after: Trace)
    requires Conserved(before) && after.log == before.log
    requires forall h :: Held(after, h) == Held(before, h)
    ensures Conserved(after)
  {
    hide Held, IsDemarcator;
    forall i | 0 <= i < |after.log| && !IsDemarcator(after.log[i].event)
      ensures HeldSomewhere(after, after.log[i])
    {
      assert HeldSomewhere(before, before.log[i]);
      var h :| before.log[i] in Held(before, h);
      assert after.log[i] in Held(after, h);
    }
  }

  lemma EndLatestConserves(t: Trace, latest: string, e: Event, esns: seq<string>)
    requires Conserved(t)
    ensures Conserved(EndLatest(t, latest, e, esns))
  {
    hide Conserved, CloseTransaction, StringAt;
    if latest in t.state.active && !t.state.active[latest].ns91Sent {
      if t.state.active[latest].individualNs92Allowed {
        var tx := t.state.active[latest];
        var cmd := StringAt(e, "CMD");
        var done := tx.(isComplete := true, endCmd := if cmd.Some? then cmd.value else tx.endCmd);
        var marked := t.(state := t.state.(active := t.state.active[latest := done]));
        SameHeldConserves(t, marked);
        CloseConserves(marked, latest, None, EndSeenLatest, esns);
      } else {
        CloseConserves(t, latest, Some(Abandoned), EndSeenLatest, esns);
      }
    }
  }

  // ----- an arrival is added to one place -----

  /** Everything but the newest log entry is accounted for. */
  ghost predicate Expecting(t: Trace, a: Arrival) {
    t.log != [] && Last(t.log) == a && a.ordinal == |t.log| - 1 && Conserved(t.(log := Front(t.log)))
  }

  lemma ArriveExpects(t: Trace, a: Arrival)
    requires Conserved(t) && a.ordinal == |t.log|
    ensures Expecting(Arrive(t, a), a)
  {
    assert Front(t.log + [a]) == t.log;
    SameHeldConserves(t, Arrive(t, a).(log := t.log));
  }

  /** `after` holds what `before` held, with `a` appended at one place. */
  ghost predicate Appended(before: Trace, after: Trace, a: Arrival, at: Holder) {
    after.log == before.log &&
    forall h :: Held(after, h) == if h == at then Held(before, h) + [a] else Held(before, h)
  }

  lemma PriorHeld(t: Trace, a: Arrival)
    requires Expecting(t, a)
    ensures forall h :: Held(t.(log := Front(t.log)), h) == Held(t, h)
    ensures forall h, x :: x in Held(t, h) ==> x.ordinal < a.ordinal && t.log[x.ordinal] == x && !IsDemarcator(x.event)
    ensures forall h :: Ascending(Held(t, h))
  {
    var prior := t.(log := Front(t.log));
    assert forall h :: Held(prior, h) == Held(t, h);
    hide Held, IsDemarcator;
  }

  lemma AppendFromLog(before: Trace, after: Trace, a: Arrival, at: Holder)
    requires Expecting(before, a) && Appended(before, after, a, at) && !IsDemarcator(a.event)
    ensures FromLog(after)
  {
    PriorHeld(before, a);
    hide Held, IsDemarcator, Conserved;
    forall h ensures Ascending(Held(after, h)) {
      AscendingSnoc(Held(before, h), a);
    }
  }

  lemma AscendingSnoc(routed: seq<Arrival>, a: Arrival)
    requires Ascending(routed) && forall x :: x in routed ==> x.ordinal < a.ordinal
    ensures Ascending(routed + [a])
  {
  }

  lemma AppendExclusive(before: Trace, after: Trace, a: Arrival, at: Holder)
    requires Expecting(before, a) && Appended(before, after, a, at)
    ensures Exclusive(after)
  {
    PriorHeld(before, a);
    var prior := before.(log := Front(before.log));
    assert Exclusive(prior);
    hide Held, IsDemarcator, Conserved;
    forall h, h', x | x in Held(after, h) && x in Held(after, h') ensures h == h' {
      if x != a {
        assert x in Held(prior, h) && x in Held(prior, h');
      }
    }
  }

  lemma StillHeld(before: Trace, after: Trace, a: Arrival, at: Holder, x: Arrival)
    requires Appended(before, after, a, at) && HeldSomewhere(before.(log := []), x)
    ensures HeldSomewhere(after, x)
  {
    var prior := before.(log := []);
    var h :| x in Held(prior, h);
    assert Held(prior, h) == Held(before, h);
    hide Held;
    assert x in Held(after, h);
  }

  lemma HeldIgnoresLog(t: Trace, log: seq<Arrival>, x: Arrival)
    requires HeldSomewhere(t.(log := log), x)
    ensures HeldSomewhere(t.(log := []), x)
  {
    var h :| x in Held(t.(log := log), h);
    assert x in Held(t.(log := []), h);
  }

  lemma AppendComplete(before: Trace, after: Trace, a: Arrival, at: Holder)
    requires Expecting(before, a) && Appended(before, after, a, at)
    ensures Complete(after)
  {
    var prior := before.(log := Front(before.log));
    hide FromLog, Exclusive, IsDemarcator, Held;
    assert a in Held(after, at);
    forall i | 0 <= i < |after.log| && !IsDemarcator(after.log[i].event)
      ensures HeldSomewhere(after, after.log[i])
    {
      if i < |after.log| - 1 {
        assert prior.log[i] == after.log[i];
        HeldIgnoresLog(before, prior.log, after.log[i]);
        StillHeld(before, after, a, at, after.log[i]);
      } else {
        assert after.log[i] == a;
      }
    }
  }

  lemma AppendConserves(before: Trace, after: Trace, a: Arrival, at: Holder)
    requires Expecting(before, a) && Appended(before, after, a, at) && !IsDemarcator(a.event)
    ensures Conserved(after)
  {
    hide Expecting, Appended, FromLog, Exclusive, Complete;
    AppendFromLog(before, after, a, at);
    AppendExclusive(before, after, a, at);
    AppendComplete(before, after, a, at);
  }

  lemma DemarcatorConserves(t: Trace, a: Arrival)
    requires Expecting(t, a) && IsDemarcator(a.event)
    ensures Conserved(t)
  {
    var prior := t.(log := Front(t.log));
    assert forall h :: Held(prior, h) == Held(t, h);
    hide Held, IsDemarcator;
    forall i | 0 <= i < |t.log| && !IsDemarcator(t.log[i].event) ensures HeldSomewhere(t, t.log[i]) {
      assert HeldSomewhere(prior, prior.log[i]);
      var h :| prior.log[i] in Held(prior, h);
      assert t.log[i] in Held(t, h);
    }
  }

  lemma HandleTransactionAppends(t: Trace, txn: string, a: Arrival, esns: seq<string>)
    ensures Appended(t, HandleTransaction(t, txn, a, esns), a, Live(txn))
  {
    var before := Target(t.state, txn, a.clock.now);
    ReceiveRouted(before, a, esns);
    hide Receive, NewEtags, Continues;
  }

  lemma ReceiveRouted(tx: Transaction, a: Arrival, esns: seq<string>)
    ensures Receive(tx, a, esns).routed == tx.routed + [a]
  {
    ReceiveKeepsFields(tx, a, esns);
    hide Receive;
  }

  lemma HandleUnknownConserves(t: Trace, a: Arrival, esns: seq<string>)
    requires Expecting(t, a) && !IsDemarcator(a.event)
    ensures Conserved(HandleUnknown(t, a, esns))
  {
    var key := Window(a.clock.now);
    var g := Collect(GroupFor(t.state, key, a.clock.now), a);
    var stored := t.(state := t.state.(groups := t.state.groups[key := g]));
    assert Appended(t, stored, a, Waiting(key));
    hide Conserved, Expecting, Appended, Collect, GroupFor, FlushGroup, Window;
    AppendConserves(t, stored, a, Waiting(key));
    FlushConserves(stored, key, esns);
  }

  // ----- one step, every run -----

  lemma StepConserves(t: Trace, input: Input)
    requires Conserved(t)
    ensures Conserved(Step(t, input))
  {
    hide Conserved, Expecting, FlushGroups, TimeOuts, Abandon, EndLatest, HandleTransaction, HandleUnknown, Arrive;
    FlushGroupsConserves(t, input.choice.staleGroups, input.esns);
    TimeOutsConserves(FlushGroups(t, input.choice.staleGroups, input.esns), input.choice.timedOut,
                      input.clock.transactionSweep, input.esns);
    SweepLog(t, input);
    var a, d := NextArrival(t, input), input.choice.dispatch;
    ArriveExpects(Sweep(t, input), a);
    var p := Prepare(t, input);
    hide Prepare, Sweep;
    if IsDemarcator(a.event) {
      DemarcatorConserves(p, a);
      DemarcatorStepConserves(p, a, d, input.esns);
    } else {
      OrdinaryConserves(p, a, d, input.esns);
    }
  }

  lemma SweepLog(t: Trace, input: Input)
    ensures Sweep(t, input).log == t.log
  {
    FlushGroupsState(t, input.choice.staleGroups, input.esns);
    TimeOutsState(FlushGroups(t, input.choice.staleGroups, input.esns), input.choice.timedOut,
                  input.clock.transactionSweep, input.esns);
  }

  lemma SetPendingConserves(t: Trace, pending: Option<nat>)
    requires Conserved(t)
    ensures Conserved(t.(state := t.state.(pendingStart := pending)))
  {
    SameHeldConserves(t, t.(state := t.state.(pendingStart := pending)));
  }

  lemma DemarcatorStepConserves(t: Trace, a: Arrival, d: Dispatching, esns: seq<string>)
    requires Conserved(t) && IsDemarcator(a.event)
    ensures Conserved(Dispatch(t, a, d, esns))
  {
    hide Conserved, FlushGroups, Abandon, EndLatest, StringAt;
    if IsStartDemarcator(a.event) {
      AbandonConserves(t, d.abandoned, StartSeen, esns);
      SetPendingConserves(Abandon(t, d.abandoned, StartSeen, esns), Some(a.clock.now));
    } else if t.state.active == map[] {
      FlushGroupsConserves(t, d.flushed, esns);
      SetPendingConserves(FlushGroups(t, d.flushed, esns), None);
    } else {
      AbandonConserves(t, d.abandoned, EndSeenOther, esns);
      var closed := Abandon(t, d.abandoned, EndSeenOther, esns);
      SetPendingConserves(closed, None);
      EndLatestConserves(DropPendingStart(closed), d.latest, a.event, esns);
    }
  }

  lemma OrdinaryConserves(t: Trace, a: Arrival, d: Dispatching, esns: seq<string>)
    requires Expecting(t, a) && !IsDemarcator(a.event)
    ensures Conserved(Dispatch(t, a, d, esns))
  {
    hide Conserved, Expecting, Appended, HandleTransaction, HandleUnknown, StringAt, Route;
    var route := Route(t.state, a.event, d.latest);
    if route.Some? {
      HandleTransactionAppends(t, route.value, a, esns);
      AppendConserves(t, HandleTransaction(t, route.value, a, esns), a, Live(route.value));
    } else {
      HandleUnknownConserves(t, a, esns);
    }
  }

  /** Conservation of events over every run and every iteration order. */
  lemma {:induction false} EventsConserved(ip: string, created: nat, inputs: seq<Input>)
    ensures Conserved(Run(Fresh(ip, created), inputs))
    ensures |Run(Fresh(ip, created), inputs).log| == |inputs|
    ensures forall i :: 0 <= i < |inputs| ==>
              Run(Fresh(ip, created), inputs).log[i] == Arrival(i, inputs[i].event, inputs[i].clock)
  {
    hide Step, Conserved, Fresh;
    if inputs == [] {
      FreshConserved(ip, created);
    } else {
      EventsConserved(ip, created, Front(inputs));
      StepConserves(Run(Fresh(ip, created), Front(inputs)), Last(inputs));
      StepLog(Run(Fresh(ip, created), Front(inputs)), Last(inputs));
    }
  }

  lemma FreshConserved(ip: string, created: nat)
    ensures Conserved(Fresh(ip, created)) && Fresh(ip, created).log == []
  {
    assert forall h :: Held(Fresh(ip, created), h) == [];
  }

  lemma StepLog(t: Trace, input: Input)
    ensures Step(t, input).log == t.log + [NextArrival(t, input)]
  {
    SweepLog(t, input);
    var p, a, d := Prepare(t, input), NextArrival(t, input), input.choice.dispatch;
    AbandonState(p, d.abandoned, StartSeen, input.esns);
    AbandonState(p, d.abandoned, EndSeenOther, input.esns);
    FlushGroupsState(p, d.flushed, input.esns);
    hide Sweep, IsStartDemarcator, IsEndDemarcator, Route, Receive, NewEtags, Abandon, FlushGroups, StringAt,
         GroupComplete, Collect, GroupFor;
  }
}
