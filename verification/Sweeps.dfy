/** What closing many transactions or groups, in some order, does to a trace. */
module Sweeps {
  import opened Collections
  import opened Payload
  import opened Register

  lemma FrontElements<T>(order: seq<T>)
    requires order != []
    ensures Elements(order) == Elements(Front(order)) + {Last(order)}
  {
    assert order == Front(order) + [Last(order)];
  }

  /** `after` is `before` with groups removed and closings added, all else unchanged. */
  ghost predicate OnlyGroups(before: Trace, after: Trace, groups: map<nat, Group>) {
    after == before.(state := before.state.(groups := groups), closings := after.closings)
  }

  ghost predicate OnlyActive(before: Trace, after: Trace, active: map<string, Transaction>) {
    after == before.(state := before.state.(active := active), closings := after.closings)
  }

  lemma {:induction false} FlushGroupsState(t: Trace, keys: seq<nat>, esns: seq<string>)
    ensures OnlyGroups(t, FlushGroups(t, keys, esns), t.state.groups - Elements(keys))
  {
    if keys == [] {
      assert t.state.groups - Elements(keys) == t.state.groups;
    } else {
      FlushGroupsState(t, Front(keys), esns);
      FrontElements(keys);
      assert t.state.groups - Elements(keys) == t.state.groups - Elements(Front(keys)) - {Last(keys)};
    }
  }

  lemma {:induction false} TimeOutsState(t: Trace, txns: seq<string>, now: nat, esns: seq<string>)
    ensures OnlyActive(t, TimeOuts(t, txns, now, esns), t.state.active - Elements(txns))
  {
    hide CartEndExpired;
    if txns == [] {
      assert t.state.active - Elements(txns) == t.state.active;
    } else {
      TimeOutsState(t, Front(txns), now, esns);
      FrontElements(txns);
      assert t.state.active - Elements(txns) == t.state.active - Elements(Front(txns)) - {Last(txns)};
    }
  }

  lemma {:induction false} AbandonState(t: Trace, txns: seq<string>, cause: Cause, esns: seq<string>)
    ensures OnlyActive(t, Abandon(t, txns, cause, esns), t.state.active - Elements(txns))
  {
    if txns == [] {
      assert t.state.active - Elements(txns) == t.state.active;
    } else {
      AbandonState(t, Front(txns), cause, esns);
      FrontElements(txns);
      assert t.state.active - Elements(txns) == t.state.active - Elements(Front(txns)) - {Last(txns)};
    }
  }

  /** A step only appends to what was recorded, and keeps the register's IP. */
  ghost predicate Extends(t: Trace, u: Trace) {
    t.closings <= u.closings && t.ns92 <= u.ns92 && t.state.registerIP == u.state.registerIP
  }

  lemma {:induction false} FlushGroupsExtends(t: Trace, keys: seq<nat>, esns: seq<string>)
    ensures Extends(t, FlushGroups(t, keys, esns))
  {
    hide GroupTransaction;
    if keys == [] {
    } else {
      FlushGroupsExtends(t, Front(keys), esns);
    }
  }

  lemma {:induction false} TimeOutsExtends(t: Trace, txns: seq<string>, now: nat, esns: seq<string>)
    ensures Extends(t, TimeOuts(t, txns, now, esns))
  {
    hide TimeoutStatus, TimeoutCause;
    if txns == [] {
    } else {
      TimeOutsExtends(t, Front(txns), now, esns);
    }
  }

  lemma {:induction false} AbandonExtends(t: Trace, txns: seq<string>, cause: Cause, esns: seq<string>)
    ensures Extends(t, Abandon(t, txns, cause, esns))
  {
    if txns == [] {
    } else {
      AbandonExtends(t, Front(txns), cause, esns);
    }
  }

  lemma DispatchExtends(p: Trace, a: Arrival, d: Dispatching, esns: seq<string>)
    ensures Extends(p, Dispatch(p, a, d, esns))
  {
    AbandonExtends(p, d.abandoned, StartSeen, esns);
    AbandonExtends(p, d.abandoned, EndSeenOther, esns);
    FlushGroupsExtends(p, d.flushed, esns);
    hide FlushGroups, Abandon, IsStartDemarcator, IsEndDemarcator, Route, Receive, NewEtags, Continues,
         Collect, GroupFor, GroupComplete, GroupTransaction, StringAt;
  }

  lemma StepExtends(t: Trace, input: Input)
    ensures Extends(t, Step(t, input))
  {
    hide FlushGroups, TimeOuts, Dispatch;
    var flushed := FlushGroups(t, input.choice.staleGroups, input.esns);
    FlushGroupsExtends(t, input.choice.staleGroups, input.esns);
    TimeOutsExtends(flushed, input.choice.timedOut, input.clock.transactionSweep, input.esns);
    DispatchExtends(Prepare(t, input), NextArrival(t, input), input.choice.dispatch, input.esns);
  }

  // ----- which closings a step adds -----

  /** Every closing added has the property. */
  ghost predicate Adds(t: Trace, u: Trace, p: Closing -> bool) {
    t.closings <= u.closings && forall i :: |t.closings| <= i < |u.closings| ==> p(u.closings[i])
  }

  lemma AddsTransitive(t: Trace, u: Trace, v: Trace, p: Closing -> bool)
    requires Adds(t, u, p) && Adds(u, v, p)
    ensures Adds(t, v, p)
  {
  }

  function FlushClosing(g: Group, esns: seq<string>): Closing {
    Closing(GroupTransaction(g), Some(Unknown), UnknownFlush, esns)
  }

  function TimeoutClosing(tx: Transaction, now: nat, esns: seq<string>): Closing {
    Closing(tx, TimeoutStatus(tx, now), TimeoutCause(tx, now), esns)
  }

  function AbandonClosing(tx: Transaction, cause: Cause, esns: seq<string>): Closing {
    Closing(tx, Some(Abandoned), cause, esns)
  }

  lemma {:induction false} FlushGroupsAdds(t: Trace, keys: seq<nat>, esns: seq<string>, p: Closing -> bool)
    requires forall k :: k in keys && k in t.state.groups ==> p(FlushClosing(t.state.groups[k], esns))
    ensures Adds(t, FlushGroups(t, keys, esns), p)
  {
    hide GroupTransaction;
    if keys == [] {
    } else {
      FlushGroupsState(t, Front(keys), esns);
      FlushGroupsAdds(t, Front(keys), esns, p);
      assert Last(keys) in keys;
    }
  }

  lemma {:induction false} TimeOutsAdds(t: Trace, txns: seq<string>, now: nat, esns: seq<string>, p: Closing -> bool)
    requires forall k :: k in txns && k in t.state.active ==> p(TimeoutClosing(t.state.active[k], now, esns))
    ensures Adds(t, TimeOuts(t, txns, now, esns), p)
  {
    hide TimeoutStatus, TimeoutCause;
    if txns == [] {
    } else {
      TimeOutsState(t, Front(txns), now, esns);
      TimeOutsAdds(t, Front(txns), now, esns, p);
      assert Last(txns) in txns;
    }
  }

  lemma {:induction false} AbandonAdds(t: Trace, txns: seq<string>, cause: Cause, esns: seq<string>,
                                       p: Closing -> bool)
    requires forall k :: k in txns && k in t.state.active ==> p(AbandonClosing(t.state.active[k], cause, esns))
    ensures Adds(t, Abandon(t, txns, cause, esns), p)
  {
    if txns == [] {
    } else {
      AbandonState(t, Front(txns), cause, esns);
      AbandonAdds(t, Front(txns), cause, esns, p);
      assert Last(txns) in txns;
    }
  }

  /** The closing an end demarcator makes of the latest transaction. */
  function LatestClosing(tx: Transaction, e: Event, esns: seq<string>): Closing {
    var cmd := StringAt(e, "CMD");
    if tx.individualNs92Allowed
    then Closing(tx.(isComplete := true, endCmd := if cmd.Some? then cmd.value else tx.endCmd), None,
                 EndSeenLatest, esns)
    else Closing(tx, Some(Abandoned), EndSeenLatest, esns)
  }

  lemma HandleEndAdds(t: Trace, e: Event, d: Dispatching, esns: seq<string>, p: Closing -> bool)
    requires t.state.active == map[] ==>
               forall k :: k in d.flushed && k in t.state.groups ==> p(FlushClosing(t.state.groups[k], esns))
    requires t.state.active != map[] ==>
               (forall k :: k in d.abandoned && k in t.state.active ==>
                  p(AbandonClosing(t.state.active[k], EndSeenOther, esns))) &&
               (d.latest in t.state.active ==> p(LatestClosing(t.state.active[d.latest], e, esns)))
    ensures Adds(t, HandleEnd(t, e, d, esns), p)
  {
    hide StringAt, FlushGroups, Abandon, GroupTransaction;
    if t.state.active == map[] {
      FlushGroupsAdds(t, d.flushed, esns, p);
    } else {
      AbandonState(t, d.abandoned, EndSeenOther, esns);
      AbandonAdds(t, d.abandoned, EndSeenOther, esns, p);
    }
  }

  /** The group an unknown event completes, if any. */
  function CompletedGroup(s: State, a: Arrival): Group {
    Collect(GroupFor(s, Window(a.clock.now), a.clock.now), a)
  }

  lemma OrdinaryAdds(t: Trace, a: Arrival, d: Dispatching, esns: seq<string>, p: Closing -> bool)
    requires Route(t.state, a.event, d.latest).None? && GroupComplete(CompletedGroup(t.state, a)) ==>
               p(FlushClosing(CompletedGroup(t.state, a), esns))
    ensures Adds(t, DispatchOrdinary(t, a, d, esns), p)
  {
    hide Route, Receive, NewEtags, Continues, Collect, GroupFor, GroupComplete, GroupTransaction, Window, Target;
  }

  /** Every closing that dispatching can make has the property. */
  ghost predicate DispatchMakes(s: State, a: Arrival, d: Dispatching, esns: seq<string>, p: Closing -> bool) {
    if IsStartDemarcator(a.event) then
      forall k :: k in d.abandoned && k in s.active ==> p(AbandonClosing(s.active[k], StartSeen, esns))
    else if IsEndDemarcator(a.event) then
      if s.active == map[] then forall k :: k in d.flushed && k in s.groups ==> p(FlushClosing(s.groups[k], esns))
      else
        (forall k :: k in d.abandoned && k in s.active ==> p(AbandonClosing(s.active[k], EndSeenOther, esns))) &&
        (d.latest in s.active ==> p(LatestClosing(s.active[d.latest], a.event, esns)))
    else
      Route(s, a.event, d.latest).None? && GroupComplete(CompletedGroup(s, a)) ==>
        p(FlushClosing(CompletedGroup(s, a), esns))
  }

  lemma DispatchAdds(t: Trace, a: Arrival, d: Dispatching, esns: seq<string>, p: Closing -> bool)
    requires DispatchMakes(t.state, a, d, esns, p)
    ensures Adds(t, Dispatch(t, a, d, esns), p)
  {
    hide IsStartDemarcator, IsEndDemarcator, HandleEnd, DispatchOrdinary, Abandon, Route, GroupComplete, FlushClosing,
         AbandonClosing, LatestClosing, CompletedGroup;
    if IsStartDemarcator(a.event) {
      AbandonAdds(t, d.abandoned, StartSeen, esns, p);
    } else if IsEndDemarcator(a.event) {
      HandleEndAdds(t, a.event, d, esns, p);
    } else {
      OrdinaryAdds(t, a, d, esns, p);
    }
  }

  lemma StepAdds(t: Trace, input: Input, p: Closing -> bool)
    requires forall k :: k in input.choice.staleGroups && k in t.state.groups ==>
               p(FlushClosing(t.state.groups[k], input.esns))
    requires forall k :: k in input.choice.timedOut && k in t.state.active ==>
               p(TimeoutClosing(t.state.active[k], input.clock.transactionSweep, input.esns))
    requires DispatchMakes(Prepare(t, input).state, NextArrival(t, input), input.choice.dispatch, input.esns, p)
    ensures Adds(t, Step(t, input), p)
  {
    var flushed := FlushGroups(t, input.choice.staleGroups, input.esns);
    FlushGroupsState(t, input.choice.staleGroups, input.esns);
    FlushGroupsAdds(t, input.choice.staleGroups, input.esns, p);
    TimeOutsAdds(flushed, input.choice.timedOut, input.clock.transactionSweep, input.esns, p);
    DispatchAdds(Prepare(t, input), NextArrival(t, input), input.choice.dispatch, input.esns, p);
    hide FlushGroups, TimeOuts, Dispatch, DispatchMakes, FlushClosing, TimeoutClosing;
    AddsTransitive(t, flushed, Sweep(t, input), p);
    AddsTransitive(t, Prepare(t, input), Step(t, input), p);
  }

  /** Unknown events leave transactions alone. */
  lemma HandleUnknownActive(t: Trace, a: Arrival, esns: seq<string>)
    ensures HandleUnknown(t, a, esns).state.active == t.state.active
  {
    hide Collect, GroupFor, GroupComplete;
  }

  lemma OnlyKey<K>(keys: set<K>, k: K)
    requires |keys| == 1 && k in keys
    ensures keys == {k}
  {
    assert |keys - {k}| == 0;
  }

  lemma FlushGroupsKeepTimedOut(t: Trace, keys: seq<nat>, esns: seq<string>, now: nat)
    ensures TimedOuts(FlushGroups(t, keys, esns).state, now) == TimedOuts(t.state, now)
  {
    FlushGroupsState(t, keys, esns);
  }

  lemma Overwrite<K, V>(m: map<K, V>, k: K, first: V, second: V)
    ensures m[k := first][k := second] == m[k := second]
  {
  }

  /** An order that visits each selected key once grows by one key. */
  ghost predicate Visits<T(!new)>(order: seq<T>, selected: set<T>, remaining: set<T>) {
    Enumerates(order, selected - remaining)
  }

  lemma VisitOne<T(!new)>(order: seq<T>, selected: set<T>, remaining: set<T>, key: T)
    requires Visits(order, selected, remaining) && key in remaining
    ensures Visits(if key in selected then order + [key] else order, selected, remaining - {key})
  {
  }

  lemma VisitNone<T(!new)>(selected: set<T>, remaining: set<T>)
    requires selected <= remaining
    ensures Visits([], selected, remaining)
  {
  }

  lemma VisitAll<T(!new)>(order: seq<T>, selected: set<T>)
    requires Visits(order, selected, {})
    ensures Enumerates(order, selected)
  {
    assert selected - {} == selected;
  }

  lemma FlushGroupsSnoc(t: Trace, order: seq<nat>, key: nat, esns: seq<string>)
    ensures FlushGroups(t, order + [key], esns) == FlushGroup(FlushGroups(t, order, esns), key, esns)
    ensures FlushGroups(t, [], esns) == t
  {
    assert Front(order + [key]) == order;
  }

  lemma TimeOutsSnoc(t: Trace, order: seq<string>, txn: string, now: nat, esns: seq<string>)
    ensures TimeOuts(t, order + [txn], now, esns) == TimeOut(TimeOuts(t, order, now, esns), txn, now, esns)
    ensures TimeOuts(t, [], now, esns) == t
  {
    assert Front(order + [txn]) == order;
  }

  lemma AbandonSnoc(t: Trace, order: seq<string>, txn: string, cause: Cause, esns: seq<string>)
    ensures Abandon(t, order + [txn], cause, esns) ==
            CloseTransaction(Abandon(t, order, cause, esns), txn, Some(Abandoned), cause, esns)
    ensures Abandon(t, [], cause, esns) == t
  {
    assert Front(order + [txn]) == order;
  }
}
