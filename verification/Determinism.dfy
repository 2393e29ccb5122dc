/** Go's map iteration order does not matter: with strictly increasing event
    times every order leads to the same state, the same NS92 queue and the same
    NS91 records up to their order. */
module Determinism {
  import opened Collections
  import opened Payload
  import opened Register
  import opened Sweeps
  import opened Transactions
  import opened Aggregation
  import opened Invariants

  /** Equal but for the order of the closings. */
  ghost predicate Same(t: Trace, u: Trace) {
    t.state == u.state && t.log == u.log && t.ns92 == u.ns92 && multiset(t.closings) == multiset(u.closings)
  }

  // ----- sums over key sets -----

  ghost function Bag<K(!new)>(m: map<K, Closing>, keys: set<K>): multiset<Closing>
    requires keys <= m.Keys
  {
    if keys == {} then multiset{} else
      var k :| k in keys;
      multiset{m[k]} + Bag(m, keys - {k})
  }

  lemma {:induction false} BagPick<K(!new)>(m: map<K, Closing>, keys: set<K>, k: K)
    requires keys <= m.Keys && k in keys
    ensures Bag(m, keys) == multiset{m[k]} + Bag(m, keys - {k})
    decreases |keys|
  {
    var j :| j in keys && Bag(m, keys) == multiset{m[j]} + Bag(m, keys - {j});
    if j != k {
      BagPick(m, keys - {j}, k);
      BagPick(m, keys - {k}, j);
      assert keys - {j} - {k} == keys - {k} - {j};
    }
  }

  lemma DistinctFront<K(!new)>(order: seq<K>)
    requires NoDuplicates(order) && order != []
    ensures NoDuplicates(Front(order)) && Elements(Front(order)) == Elements(order) - {Last(order)}
    ensures Last(order) in Elements(order) && Last(order) !in Elements(Front(order))
  {
    FrontElements(order);
    assert forall i :: 0 <= i < |Front(order)| ==> Front(order)[i] == order[i];
  }

  lemma EnumeratesElements<K(!new)>(order: seq<K>, keys: set<K>)
    requires Enumerates(order, keys)
    ensures NoDuplicates(order) && Elements(order) == keys
  {
  }

  // ----- what each sweep adds -----

  function FlushMap(groups: map<nat, Group>, esns: seq<string>): map<nat, Closing> {
    map k | k in groups :: Closing(GroupTransaction(groups[k]), Some(Unknown), UnknownFlush, esns)
  }

  function TimeOutMap(active: map<string, Transaction>, now: nat, esns: seq<string>): map<string, Closing> {
    map k | k in active :: Closing(active[k], TimeoutStatus(active[k], now), TimeoutCause(active[k], now), esns)
  }

  function AbandonMap(active: map<string, Transaction>, cause: Cause, esns: seq<string>): map<string, Closing> {
    map k | k in active :: Closing(active[k], Some(Abandoned), cause, esns)
  }

  lemma {:induction false} FlushGroupsBag(t: Trace, order: seq<nat>, esns: seq<string>)
    requires NoDuplicates(order) && Elements(order) <= t.state.groups.Keys
    ensures multiset(FlushGroups(t, order, esns).closings) ==
            multiset(t.closings) + Bag(FlushMap(t.state.groups, esns), Elements(order))
  {
    hide GroupTransaction, NoDuplicates;
    if order == [] {
    } else {
      DistinctFront(order);
      FlushGroupsBag(t, Front(order), esns);
      FlushGroupsState(t, Front(order), esns);
      BagPick(FlushMap(t.state.groups, esns), Elements(order), Last(order));
      hide Elements, Bag;
    }
  }

  lemma {:induction false} TimeOutsBag(t: Trace, order: seq<string>, now: nat, esns: seq<string>)
    requires NoDuplicates(order) && Elements(order) <= t.state.active.Keys
    ensures multiset(TimeOuts(t, order, now, esns).closings) ==
            multiset(t.closings) + Bag(TimeOutMap(t.state.active, now, esns), Elements(order))
  {
    hide TimeoutStatus, TimeoutCause, NoDuplicates;
    if order == [] {
    } else {
      DistinctFront(order);
      TimeOutsBag(t, Front(order), now, esns);
      TimeOutsState(t, Front(order), now, esns);
      BagPick(TimeOutMap(t.state.active, now, esns), Elements(order), Last(order));
      hide Elements, Bag;
    }
  }

  lemma {:induction false} AbandonBag(t: Trace, order: seq<string>, cause: Cause, esns: seq<string>)
    requires NoDuplicates(order) && Elements(order) <= t.state.active.Keys
    ensures multiset(Abandon(t, order, cause, esns).closings) ==
            multiset(t.closings) + Bag(AbandonMap(t.state.active, cause, esns), Elements(order))
  {
    hide NoDuplicates;
    if order == [] {
    } else {
      DistinctFront(order);
      AbandonBag(t, Front(order), cause, esns);
      AbandonState(t, Front(order), cause, esns);
      BagPick(AbandonMap(t.state.active, cause, esns), Elements(order), Last(order));
      hide Elements, Bag;
    }
  }

  // ----- each stage respects Same -----

  lemma SameFlushGroups(t: Trace, u: Trace, o: seq<nat>, p: seq<nat>, keys: set<nat>, esns: seq<string>)
    requires Same(t, u) && Enumerates(o, keys) && Enumerates(p, keys) && keys <= t.state.groups.Keys
    ensures Same(FlushGroups(t, o, esns), FlushGroups(u, p, esns))
  {
    EnumeratesElements(o, keys);
    EnumeratesElements(p, keys);
    FlushGroupsState(t, o, esns);
    FlushGroupsState(u, p, esns);
    FlushGroupsBag(t, o, esns);
    FlushGroupsBag(u, p, esns);
    hide FlushGroups, Bag, Elements, FlushMap, Enumerates;
  }

  lemma SameTimeOuts(t: Trace, u: Trace, o: seq<string>, p: seq<string>, keys: set<string>, now: nat, esns: seq<string>)
    requires Same(t, u) && Enumerates(o, keys) && Enumerates(p, keys) && keys <= t.state.active.Keys
    ensures Same(TimeOuts(t, o, now, esns), TimeOuts(u, p, now, esns))
  {
    EnumeratesElements(o, keys);
    EnumeratesElements(p, keys);
    TimeOutsState(t, o, now, esns);
    TimeOutsState(u, p, now, esns);
    TimeOutsBag(t, o, now, esns);
    TimeOutsBag(u, p, now, esns);
    hide TimeOuts, Bag, Elements, TimeOutMap, Enumerates;
  }

  lemma SameAbandon(t: Trace, u: Trace, o: seq<string>, p: seq<string>, keys: set<string>, cause: Cause,
                    esns: seq<string>)
    requires Same(t, u) && Enumerates(o, keys) && Enumerates(p, keys) && keys <= t.state.active.Keys
    ensures Same(Abandon(t, o, cause, esns), Abandon(u, p, cause, esns))
  {
    EnumeratesElements(o, keys);
    EnumeratesElements(p, keys);
    AbandonState(t, o, cause, esns);
    AbandonState(u, p, cause, esns);
    AbandonBag(t, o, cause, esns);
    AbandonBag(u, p, cause, esns);
    hide Abandon, Bag, Elements, AbandonMap, Enumerates;
  }

  lemma SamePrepare(t: Trace, u: Trace, i: Input, j: Input)
    requires Same(t, u) && SameButChoice(i, j) && ValidChoice(t, i) && ValidChoice(u, j)
    ensures Same(Prepare(t, i), Prepare(u, j)) && NextArrival(t, i) == NextArrival(u, j)
  {
    hide FlushGroups, TimeOuts, ValidDispatch, Enumerates;
    var stale := StaleGroups(t.state, i.clock.unknownSweep);
    SameFlushGroups(t, u, i.choice.staleGroups, j.choice.staleGroups, stale, i.esns);
    var t', u' := FlushGroups(t, i.choice.staleGroups, i.esns), FlushGroups(u, j.choice.staleGroups, i.esns);
    FlushGroupsState(t, i.choice.staleGroups, i.esns);
    SameTimeOuts(t', u', i.choice.timedOut, j.choice.timedOut, TimedOuts(t.state, i.clock.transactionSweep),
                 i.clock.transactionSweep, i.esns);
  }

  ghost predicate SameButChoice(i: Input, j: Input) {
    i.event == j.event && i.clock == j.clock && i.esns == j.esns
  }

  /** No two active transactions were last active at the same time. */
  ghost predicate DistinctTimes(s: State) {
    forall j, k :: j in s.active && k in s.active && s.active[j].lastActivity == s.active[k].lastActivity ==> j == k
  }

  lemma LatestUnique(s: State, j: string, k: string)
    requires DistinctTimes(s) && IsLatest(s.active, j) && IsLatest(s.active, k)
    ensures j == k
  {
  }

  lemma SameEndLatest(t: Trace, u: Trace, latest: string, e: Event, esns: seq<string>)
    requires Same(t, u)
    ensures Same(EndLatest(t, latest, e, esns), EndLatest(u, latest, e, esns))
  {
    hide StringAt;
  }

  lemma SameEnd(t: Trace, u: Trace, e: Event, c: Dispatching, d: Dispatching, esns: seq<string>)
    requires Same(t, u) && IsEndDemarcator(e) && DistinctTimes(t.state)
    requires ValidDispatch(t.state, e, c) && ValidDispatch(u.state, e, d)
    ensures Same(HandleEnd(t, e, c, esns), HandleEnd(u, e, d, esns))
  {
    hide FlushGroups, Abandon, Enumerates, EndLatest, StringAt;
    EndIsNotStart(e);
    if t.state.active == map[] {
      SameFlushGroups(t, u, c.flushed, d.flushed, t.state.groups.Keys, esns);
    } else {
      LatestUnique(t.state, c.latest, d.latest);
      SameAbandon(t, u, c.abandoned, d.abandoned, Others(t.state, c.latest), EndSeenOther, esns);
      SameEndLatest(DropPendingStart(Abandon(t, c.abandoned, EndSeenOther, esns)),
                    DropPendingStart(Abandon(u, d.abandoned, EndSeenOther, esns)), c.latest, e, esns);
    }
  }

  lemma EndIsNotStart(e: Event)
    requires IsEndDemarcator(e)
    ensures !IsStartDemarcator(e)
  {
    assert "EndTransaction"[0] != "StartTransaction"[0];
  }

  lemma SameOrdinary(t: Trace, u: Trace, a: Arrival, latest: string, latest': string, esns: seq<string>)
    requires Same(t, u)
    requires Route(t.state, a.event, latest) == Route(u.state, a.event, latest')
    ensures Same(DispatchOrdinary(t, a, Dispatching(latest, [], []), esns),
                 DispatchOrdinary(u, a, Dispatching(latest', [], []), esns))
  {
    hide Route, Receive, NewEtags, Continues, Collect, GroupFor, GroupComplete, GroupTransaction;
  }

  lemma OrdinaryIgnoresOrders(t: Trace, a: Arrival, d: Dispatching, esns: seq<string>)
    ensures DispatchOrdinary(t, a, d, esns) == DispatchOrdinary(t, a, Dispatching(d.latest, [], []), esns)
  {
    hide HandleTransaction, HandleUnknown, TransactionSeqOf;
  }

  lemma SameRoute(s: State, e: Event, c: Dispatching, d: Dispatching)
    requires DistinctTimes(s) && !IsDemarcator(e) && ValidDispatch(s, e, c) && ValidDispatch(s, e, d)
    ensures Route(s, e, c.latest) == Route(s, e, d.latest)
  {
    hide TransactionSeqOf, StringAt, IsLatest;
    if TransactionSeqOf(e) == "" && s.active != map[] {
      LatestUnique(s, c.latest, d.latest);
    }
  }

  lemma SameStep(t: Trace, u: Trace, i: Input, j: Input)
    requires Same(t, u) && SameButChoice(i, j) && ValidChoice(t, i) && ValidChoice(u, j) && DistinctTimes(t.state)
    ensures Same(Step(t, i), Step(u, j))
  {
    SamePrepare(t, u, i, j);
    PrepareDistinct(t, i);
    ValidAtDispatch(t, i);
    ValidAtDispatch(u, j);
    var p, q, a := Prepare(t, i), Prepare(u, j), NextArrival(t, i);
    var c, d := i.choice.dispatch, j.choice.dispatch;
    hide Prepare, Abandon, HandleEnd, DispatchOrdinary, IsStartDemarcator, IsEndDemarcator, Enumerates, IsLatest,
         TransactionSeqOf, DistinctTimes, ValidChoice, Route;
    if IsStartDemarcator(a.event) {
      SameAbandon(p, q, c.abandoned, d.abandoned, p.state.active.Keys, StartSeen, i.esns);
    } else if IsEndDemarcator(a.event) {
      SameEnd(p, q, a.event, c, d, i.esns);
    } else {
      SameRoute(p.state, a.event, c, d);
      SameOrdinary(p, q, a, c.latest, d.latest, i.esns);
      OrdinaryIgnoresOrders(p, a, c, i.esns);
      OrdinaryIgnoresOrders(q, a, d, i.esns);
    }
  }

  lemma ValidAtDispatch(t: Trace, i: Input)
    requires ValidChoice(t, i)
    ensures ValidDispatch(Prepare(t, i).state, i.event, i.choice.dispatch)
  {
  }

  lemma PrepareDistinct(t: Trace, i: Input)
    requires DistinctTimes(t.state)
    ensures DistinctTimes(Prepare(t, i).state)
    ensures forall k :: k in Prepare(t, i).state.active ==>
              k in t.state.active && Prepare(t, i).state.active[k] == t.state.active[k]
  {
    FlushGroupsState(t, i.choice.staleGroups, i.esns);
    TimeOutsState(FlushGroups(t, i.choice.staleGroups, i.esns), i.choice.timedOut, i.clock.transactionSweep, i.esns);
    hide FlushGroups, TimeOuts;
  }

  // ----- strictly increasing times keep the latest unique -----

  ghost predicate ActiveBy(s: State, time: nat) {
    forall k :: k in s.active ==> s.active[k].lastActivity <= time
  }

  ghost predicate ActiveBefore(s: State, time: nat) {
    forall k :: k in s.active ==> s.active[k].lastActivity < time
  }

  lemma StepDistinct(t: Trace, i: Input)
    requires Inv(t) && ValidChoice(t, i)
    requires DistinctTimes(t.state) && ActiveBefore(t.state, i.clock.now)
    ensures DistinctTimes(Step(t, i).state) && ActiveBy(Step(t, i).state, i.clock.now)
  {
    PrepareDistinct(t, i);
    StepInv(t, i);
    var p, a := Prepare(t, i), NextArrival(t, i);
    hide Prepare, Inv, ValidChoice, IsStartDemarcator, IsEndDemarcator, Route, HandleStart, HandleEnd, FlushGroup,
         Collect, GroupFor, GroupComplete;
    if !IsDemarcator(i.event) {
      var route := Route(p.state, a.event, i.choice.dispatch.latest);
      hide Dispatch, IsDemarcator;
      OrdinaryIs(p, a, i.choice.dispatch, i.esns);
      if route.Some? {
        TransactionDistinct(p, route.value, a, i.esns);
        hide HandleTransaction, DistinctTimes;
      } else {
        HandleUnknownActive(p, a, i.esns);
        hide HandleUnknown;
      }
    }
  }

  lemma OrdinaryIs(t: Trace, a: Arrival, d: Dispatching, esns: seq<string>)
    requires !IsDemarcator(a.event)
    ensures Dispatch(t, a, d, esns) ==
            var route := Route(t.state, a.event, d.latest);
            if route.Some? then HandleTransaction(t, route.value, a, esns) else HandleUnknown(t, a, esns)
  {
    hide Route, HandleTransaction, HandleUnknown, HandleStart, HandleEnd;
  }

  lemma TransactionDistinct(t: Trace, txn: string, a: Arrival, esns: seq<string>)
    requires DistinctTimes(t.state) && ActiveBefore(t.state, a.clock.now)
    ensures var s := HandleTransaction(t, txn, a, esns).state;
            DistinctTimes(s) && ActiveBy(s, a.clock.now)
  {
    ReceiveTime(Target(t.state, txn, a.clock.now), a, esns);
    hide Receive, NewEtags, Continues, NewTransaction;
  }

  lemma ReceiveTime(tx: Transaction, a: Arrival, esns: seq<string>)
    ensures Receive(tx, a, esns).lastActivity == a.clock.now
  {
    ReceiveKeepsFields(tx, a, esns);
    hide Receive;
  }

  ghost predicate StrictlyIncreasing(inputs: seq<Input>) {
    forall i :: 0 < i < |inputs| ==> inputs[i - 1].clock.now < inputs[i].clock.now
  }

  lemma {:induction false} RunDistinct(ip: string, created: nat, inputs: seq<Input>)
    requires ValidRun(Fresh(ip, created), inputs) && StrictlyIncreasing(inputs)
    ensures DistinctTimes(Run(Fresh(ip, created), inputs).state)
    ensures inputs != [] ==> ActiveBy(Run(Fresh(ip, created), inputs).state, Last(inputs).clock.now)
  {
    hide Step, ValidChoice, Inv, DistinctTimes, ActiveBy, ActiveBefore, Fresh;
    if inputs == [] {
      FreshDistinct(ip, created, 0);
    } else {
      var front := Front(inputs);
      var before := Run(Fresh(ip, created), front);
      RunDistinct(ip, created, front);
      RunInv(ip, created, front);
      FreshDistinct(ip, created, Last(inputs).clock.now);
      if front != [] {
        assert inputs[|inputs| - 2] == Last(front);
        LaterIsBefore(before.state, Last(front).clock.now, Last(inputs).clock.now);
      }
      StepDistinct(before, Last(inputs));
    }
  }

  lemma FreshDistinct(ip: string, created: nat, time: nat)
    ensures DistinctTimes(Fresh(ip, created).state) && ActiveBefore(Fresh(ip, created).state, time)
  {
  }

  lemma LaterIsBefore(s: State, time: nat, later: nat)
    requires ActiveBy(s, time) && time < later
    ensures ActiveBefore(s, later)
  {
  }

  // ----- whole runs -----

  ghost predicate SameInputs(these: seq<Input>, those: seq<Input>) {
    |these| == |those| && forall n :: 0 <= n < |these| ==> SameButChoice(these[n], those[n])
  }

  /** Two runs over the same events at the same, strictly increasing times end in
      the same state, whatever the map iteration orders were. */
  lemma {:induction false} RunDeterministic(ip: string, created: nat, these: seq<Input>, those: seq<Input>)
    requires ValidRun(Fresh(ip, created), these) && ValidRun(Fresh(ip, created), those)
    requires SameInputs(these, those) && StrictlyIncreasing(these)
    ensures Same(Run(Fresh(ip, created), these), Run(Fresh(ip, created), those))
  {
    hide Step, ValidChoice, DistinctTimes, ActiveBy, Fresh;
    if these == [] {
    } else {
      RunDeterministic(ip, created, Front(these), Front(those));
      RunDistinct(ip, created, Front(these));
      SameStep(Run(Fresh(ip, created), Front(these)), Run(Fresh(ip, created), Front(those)), Last(these), Last(those));
    }
  }

  lemma RemoveSame(c: seq<Closing>, d: seq<Closing>, i: nat)
    requires c != [] && multiset(c) == multiset(d) && i < |d| && d[i] == Last(c)
    ensures multiset(d[..i] + d[i + 1..]) == multiset(Front(c))
  {
    assert c == Front(c) + [Last(c)];
    assert d == d[..i] + [d[i]] + d[i + 1..];
    assert multiset(d) - multiset{d[i]} == multiset(d[..i] + d[i + 1..]);
    assert multiset(c) - multiset{d[i]} == multiset(Front(c));
  }

  lemma EtagsWithout(d: seq<Closing>, i: nat)
    requires i < |d|
    ensures multiset(Ns91Etags(d)) == multiset(Ns91Etags(d[..i] + d[i + 1..])) + multiset(Ns91Etags([d[i]]))
  {
    hide Ns91Etags;
    assert d == d[..i] + [d[i]] + d[i + 1..];
    Ns91EtagsAppend(d[..i] + [d[i]], d[i + 1..]);
    Ns91EtagsAppend(d[..i], [d[i]]);
    Ns91EtagsAppend(d[..i], d[i + 1..]);
  }

  /** The NS91 queue is then the same up to order. */
  lemma {:induction false} SameNs91(c: seq<Closing>, d: seq<Closing>)
    requires multiset(c) == multiset(d)
    ensures multiset(Ns91Etags(c)) == multiset(Ns91Etags(d))
    decreases |c|
  {
    hide Ns91Etags;
    if c == [] {
      assert |multiset(d)| == 0;
    } else {
      assert Last(c) in multiset(c);
      var i :| 0 <= i < |d| && d[i] == Last(c);
      RemoveSame(c, d, i);
      SameNs91(Front(c), d[..i] + d[i + 1..]);
      EtagsWithout(d, i);
      EtagsWithout(c, |c| - 1);
      assert c[..|c| - 1] + c[|c| - 1 + 1..] == Front(c);
    }
  }

  lemma EmissionsDeterministic(ip: string, created: nat, these: seq<Input>, those: seq<Input>)
    requires ValidRun(Fresh(ip, created), these) && ValidRun(Fresh(ip, created), those)
    requires SameInputs(these, those) && StrictlyIncreasing(these)
    ensures Run(Fresh(ip, created), these).ns92 == Run(Fresh(ip, created), those).ns92
    ensures multiset(Ns91Etags(Run(Fresh(ip, created), these).closings)) ==
            multiset(Ns91Etags(Run(Fresh(ip, created), those).closings))
  {
    hide Run, ValidRun, Fresh, Ns91Etags;
    RunDeterministic(ip, created, these, those);
    SameNs91(Run(Fresh(ip, created), these).closings, Run(Fresh(ip, created), those).closings);
  }
}
