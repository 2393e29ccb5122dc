/** Bookkeeping over whole runs: every transaction and every unknown group is
    closed exactly once, and every start command is used at most once. */
module Accounting {
  import opened Collections
  import opened Payload
  import opened Register
  import opened Transactions
  import opened Invariants

  predicate ClosesTransaction(c: Closing) { c.cause != UnknownFlush }
  predicate ClosesGroup(c: Closing) { c.cause == UnknownFlush }
  predicate HadCommand(c: Closing) { c.transaction.cmd.Some? }

  function Count(closings: seq<Closing>, p: Closing -> bool): nat {
    if closings == [] then 0 else Count(Front(closings), p) + if p(Last(closings)) then 1 else 0
  }

  lemma CountSnoc(closings: seq<Closing>, c: Closing, p: Closing -> bool)
    ensures Count(closings + [c], p) == Count(closings, p) + if p(c) then 1 else 0
  {
    assert Front(closings + [c]) == closings && Last(closings + [c]) == c;
  }

  function Commanded(active: map<string, Transaction>): set<string> {
    set k | k in active && active[k].cmd.Some?
  }

  /** Transactions ever opened: the closed ones and the active ones. */
  function TransactionsSeen(t: Trace): nat { Count(t.closings, ClosesTransaction) + |t.state.active| }

  /** Unknown groups ever opened. */
  function GroupsSeen(t: Trace): nat { Count(t.closings, ClosesGroup) + |t.state.groups| }

  /** Commands in use: in closed transactions, in active ones, and pending. */
  function CommandsSeen(t: Trace): nat {
    Count(t.closings, HadCommand) + |Commanded(t.state.active)| + if t.state.pendingStart.Some? then 1 else 0
  }

  ghost predicate SameBooks(before: Trace, after: Trace) {
    TransactionsSeen(after) == TransactionsSeen(before) && GroupsSeen(after) == GroupsSeen(before) &&
    CommandsSeen(after) == CommandsSeen(before)
  }

  // ----- closing keeps the books -----

  lemma CardRemove<K, V>(m: map<K, V>, k: K)
    requires k in m
    ensures |m - {k}| == |m| - 1
  {
    assert (m - {k}).Keys == m.Keys - {k};
    assert |(m - {k}).Keys| == |m.Keys| - 1;
  }

  lemma CardInsert<K, V>(m: map<K, V>, k: K, v: V)
    ensures |m[k := v]| == |m| + if k in m then 0 else 1
  {
    assert m[k := v].Keys == m.Keys + {k};
    assert |m[k := v].Keys| == |m.Keys| + if k in m then 0 else 1;
  }

  lemma CloseBooks(t: Trace, txn: string, requested: Option<Status>, cause: Cause, esns: seq<string>)
    requires cause != UnknownFlush
    ensures SameBooks(t, CloseTransaction(t, txn, requested, cause, esns))
  {
    if txn in t.state.active {
      var c := Closing(t.state.active[txn], requested, cause, esns);
      CountSnoc(t.closings, c, ClosesTransaction);
      CountSnoc(t.closings, c, ClosesGroup);
      CountSnoc(t.closings, c, HadCommand);
      CardRemove(t.state.active, txn);
      assert Commanded(t.state.active - {txn}) == Commanded(t.state.active) - {txn};
    }
  }

  lemma FlushBooks(t: Trace, key: nat, esns: seq<string>)
    ensures SameBooks(t, FlushGroup(t, key, esns))
  {
    if key in t.state.groups {
      var c := Closing(GroupTransaction(t.state.groups[key]), Some(Unknown), UnknownFlush, esns);
      CountSnoc(t.closings, c, ClosesTransaction);
      CountSnoc(t.closings, c, ClosesGroup);
      CountSnoc(t.closings, c, HadCommand);
      CardRemove(t.state.groups, key);
    }
  }

  lemma {:induction false} FlushGroupsBooks(t: Trace, keys: seq<nat>, esns: seq<string>)
    ensures SameBooks(t, FlushGroups(t, keys, esns))
  {
    hide FlushGroup, Count, Commanded;
    if keys == [] {
    } else {
      FlushGroupsBooks(t, Front(keys), esns);
      FlushBooks(FlushGroups(t, Front(keys), esns), Last(keys), esns);
    }
  }

  lemma {:induction false} TimeOutsBooks(t: Trace, txns: seq<string>, now: nat, esns: seq<string>)
    ensures SameBooks(t, TimeOuts(t, txns, now, esns))
  {
    hide CloseTransaction, Count, Commanded;
    if txns == [] {
    } else {
      TimeOutsBooks(t, Front(txns), now, esns);
      var before := TimeOuts(t, Front(txns), now, esns);
      if Last(txns) in before.state.active {
        var tx := before.state.active[Last(txns)];
        CloseBooks(before, Last(txns), TimeoutStatus(tx, now), TimeoutCause(tx, now), esns);
      }
    }
  }

  lemma {:induction false} AbandonBooks(t: Trace, txns: seq<string>, cause: Cause, esns: seq<string>)
    requires cause != UnknownFlush
    ensures SameBooks(t, Abandon(t, txns, cause, esns))
  {
    hide CloseTransaction, Count, Commanded;
    if txns == [] {
    } else {
      AbandonBooks(t, Front(txns), cause, esns);
      CloseBooks(Abandon(t, Front(txns), cause, esns), Last(txns), Some(Abandoned), cause, esns);
    }
  }

  // ----- what one event adds to the books -----

  predicate OpensTransaction(t: Trace, input: Input) {
    !IsDemarcator(input.event) &&
    var s := Prepare(t, input).state;
    var route := Route(s, input.event, input.choice.dispatch.latest);
    route.Some? && route.value !in s.active
  }

  predicate OpensGroup(t: Trace, input: Input) {
    !IsDemarcator(input.event) &&
    var s := Prepare(t, input).state;
    Route(s, input.event, input.choice.dispatch.latest).None? && Window(input.clock.now) !in s.groups
  }

  lemma MarkBooks(t: Trace, latest: string, done: Transaction, esns: seq<string>)
    requires latest in t.state.active && done.cmd == t.state.active[latest].cmd
    ensures var marked := t.(state := t.state.(active := t.state.active[latest := done]));
            SameBooks(t, CloseTransaction(marked, latest, None, EndSeenLatest, esns))
  {
    var marked := t.(state := t.state.(active := t.state.active[latest := done]));
    CardInsert(t.state.active, latest, done);
    assert Commanded(marked.state.active) == Commanded(t.state.active);
    hide Count, Commanded, CloseTransaction;
    CloseBooks(marked, latest, None, EndSeenLatest, esns);
  }

  lemma EndLatestBooks(t: Trace, latest: string, e: Event, esns: seq<string>)
    ensures SameBooks(t, EndLatest(t, latest, e, esns))
  {
    if latest in t.state.active && !t.state.active[latest].ns91Sent {
      if t.state.active[latest].individualNs92Allowed {
        var tx := t.state.active[latest];
        var cmd := StringAt(e, "CMD");
        var done := tx.(isComplete := true, endCmd := if cmd.Some? then cmd.value else tx.endCmd);
        hide StringAt, SameBooks, CloseTransaction;
        MarkBooks(t, latest, done, esns);
      } else {
        hide SameBooks, CloseTransaction, StringAt;
        CloseBooks(t, latest, Some(Abandoned), EndSeenLatest, esns);
      }
    }
  }

  lemma CommandedInsert(active: map<string, Transaction>, txn: string, after: Transaction)
    requires txn in active ==> after.cmd == active[txn].cmd
    ensures |Commanded(active[txn := after])| ==
            |Commanded(active)| + if txn !in active && after.cmd.Some? then 1 else 0
  {
    if txn !in active && after.cmd.Some? {
      assert Commanded(active[txn := after]) == Commanded(active) + {txn};
    } else {
      assert Commanded(active[txn := after]) == Commanded(active);
    }
  }

  lemma ReceiveKeepsCommand(tx: Transaction, a: Arrival, esns: seq<string>)
    ensures Receive(tx, a, esns).cmd == tx.cmd
  {
    ReceiveKeepsFields(tx, a, esns);
    hide Receive;
  }

  lemma HandleTransactionBooks(t: Trace, txn: string, a: Arrival, esns: seq<string>)
    ensures var after := HandleTransaction(t, txn, a, esns);
            TransactionsSeen(after) == TransactionsSeen(t) + (if txn in t.state.active then 0 else 1) &&
            GroupsSeen(after) == GroupsSeen(t) && CommandsSeen(after) == CommandsSeen(t)
  {
    hide Receive, NewEtags, Continues, Count, Commanded;
    var before := Target(t.state, txn, a.clock.now);
    var after := Receive(before, a, esns);
    ReceiveKeepsCommand(before, a, esns);
    ReceiveContinues(before, a, esns);
    CardInsert(t.state.active, txn, after);
    CommandedInsert(t.state.active, txn, after);
  }

  lemma HandleUnknownBooks(t: Trace, a: Arrival, esns: seq<string>)
    ensures var after := HandleUnknown(t, a, esns);
            TransactionsSeen(after) == TransactionsSeen(t) && CommandsSeen(after) == CommandsSeen(t) &&
            GroupsSeen(after) == GroupsSeen(t) + if Window(a.clock.now) in t.state.groups then 0 else 1
  {
    var key := Window(a.clock.now);
    var g := Collect(GroupFor(t.state, key, a.clock.now), a);
    CardInsert(t.state.groups, key, g);
    hide Collect, GroupFor, GroupComplete, Count, Commanded, FlushGroup, Window;
    FlushBooks(t.(state := t.state.(groups := t.state.groups[key := g])), key, esns);
  }

  lemma PrepareBooks(t: Trace, input: Input)
    ensures SameBooks(t, Prepare(t, input))
  {
    hide Count, Commanded, FlushGroups, TimeOuts;
    FlushGroupsBooks(t, input.choice.staleGroups, input.esns);
    TimeOutsBooks(FlushGroups(t, input.choice.staleGroups, input.esns), input.choice.timedOut,
                  input.clock.transactionSweep, input.esns);
  }

  lemma StepBooks(t: Trace, input: Input)
    ensures TransactionsSeen(Step(t, input)) == TransactionsSeen(t) + if OpensTransaction(t, input) then 1 else 0
    ensures GroupsSeen(Step(t, input)) == GroupsSeen(t) + if OpensGroup(t, input) then 1 else 0
    ensures CommandsSeen(Step(t, input)) <= CommandsSeen(t) + if IsStartDemarcator(input.event) then 1 else 0
  {
    PrepareBooks(t, input);
    var p, a, d := Prepare(t, input), NextArrival(t, input), input.choice.dispatch;
    hide Count, Commanded, Prepare, Abandon, FlushGroups, EndLatest, HandleTransaction, HandleUnknown, Route, StringAt;
    if IsStartDemarcator(a.event) {
      AbandonBooks(p, d.abandoned, StartSeen, input.esns);
    } else if IsEndDemarcator(a.event) {
      FlushGroupsBooks(p, d.flushed, input.esns);
      AbandonBooks(p, d.abandoned, EndSeenOther, input.esns);
      var abandoned := Abandon(p, d.abandoned, EndSeenOther, input.esns);
      EndLatestBooks(DropPendingStart(abandoned), d.latest, a.event, input.esns);
    } else {
      var route := Route(p.state, a.event, d.latest);
      if route.Some? {
        HandleTransactionBooks(p, route.value, a, input.esns);
      } else {
        HandleUnknownBooks(p, a, input.esns);
      }
    }
  }

  // ----- whole runs -----

  function TransactionsOpened(start: Trace, inputs: seq<Input>): nat {
    if inputs == [] then 0 else
      TransactionsOpened(start, Front(inputs))
      + if OpensTransaction(Run(start, Front(inputs)), Last(inputs)) then 1 else 0
  }

  function GroupsOpened(start: Trace, inputs: seq<Input>): nat {
    if inputs == [] then 0 else
      GroupsOpened(start, Front(inputs))
      + if OpensGroup(Run(start, Front(inputs)), Last(inputs)) then 1 else 0
  }

  function StartsSeen(inputs: seq<Input>): nat {
    if inputs == [] then 0 else StartsSeen(Front(inputs)) + if IsStartDemarcator(Last(inputs).event) then 1 else 0
  }

  /** Opened = closed + still there, for transactions and for unknown groups; and
      no start command is used twice. */
  lemma {:induction false} BooksOfRun(ip: string, created: nat, inputs: seq<Input>)
    ensures var t := Run(Fresh(ip, created), inputs);
            TransactionsOpened(Fresh(ip, created), inputs) == Count(t.closings, ClosesTransaction) + |t.state.active| &&
            GroupsOpened(Fresh(ip, created), inputs) == Count(t.closings, ClosesGroup) + |t.state.groups| &&
            Count(t.closings, HadCommand) + |Commanded(t.state.active)|
              + (if t.state.pendingStart.Some? then 1 else 0) <= StartsSeen(inputs)
  {
    hide Step, OpensTransaction, OpensGroup, Commanded;
    if inputs == [] {
      FreshBooks(ip, created);
    } else {
      BooksOfRun(ip, created, Front(inputs));
      StepBooks(Run(Fresh(ip, created), Front(inputs)), Last(inputs));
    }
  }

  lemma FreshBooks(ip: string, created: nat)
    ensures Commanded(Fresh(ip, created).state.active) == {}
  {
  }

  // ----- start triads -----

  predicate HadTriad(c: Closing) { c.transaction.hasStartTriad }

  function Confirmed(active: map<string, Transaction>): set<string> {
    set k | k in active && active[k].hasStartTriad
  }

  /** The flags of a sound record say exactly that all three parts are there. */
  lemma TriadFlags(tx: Transaction)
    requires Sound(tx)
    ensures tx.hasStartTriad == tx.individualNs92Allowed
    ensures tx.hasStartTriad <==> tx.cmd.Some? && tx.metaData.Some? && tx.transactionHeader.Some?
  {
    TriadIffComplete(tx.cmd.Some?, tx.routed);
  }

  lemma ClosingTriad(c: Closing, ip: string)
    requires ClosingOk(c, ip) && c.transaction.hasStartTriad
    ensures c.transaction.cmd.Some?
  {
    hide Sound, GroupOk;
    if c.cause == EndSeenLatest {
      TriadFlags(Unmarked(c.transaction));
    } else if c.cause != UnknownFlush {
      TriadFlags(c.transaction);
    }
  }

  lemma {:induction false} CountImplies(closings: seq<Closing>, p: Closing -> bool, q: Closing -> bool)
    requires forall i :: 0 <= i < |closings| && p(closings[i]) ==> q(closings[i])
    ensures Count(closings, p) <= Count(closings, q)
  {
    if closings == [] {
    } else {
      CountImplies(Front(closings), p, q);
    }
  }

  /** In every run: a pending start means nothing is active, at most one active
      transaction holds a command, a triad is confirmed exactly when all three
      parts are there, and there are no more confirmed triads than start events. */
  lemma StartsOfRun(ip: string, created: nat, inputs: seq<Input>)
    requires ValidRun(Fresh(ip, created), inputs)
    ensures var t := Run(Fresh(ip, created), inputs);
            StartsOk(t.state) &&
            Count(t.closings, HadTriad) + |Confirmed(t.state.active)| <= StartsSeen(inputs)
    ensures forall k :: k in Run(Fresh(ip, created), inputs).state.active ==>
              var tx := Run(Fresh(ip, created), inputs).state.active[k];
              tx.hasStartTriad == tx.individualNs92Allowed &&
              (tx.hasStartTriad <==> tx.cmd.Some? && tx.metaData.Some? && tx.transactionHeader.Some?)
  {
    RunInv(ip, created, inputs);
    BooksOfRun(ip, created, inputs);
    var t := Run(Fresh(ip, created), inputs);
    hide Run, ClosingOk, Sound, Count, GroupsOk;
    forall i | 0 <= i < |t.closings| && HadTriad(t.closings[i]) ensures HadCommand(t.closings[i]) {
      ClosingTriad(t.closings[i], t.state.registerIP);
    }
    CountImplies(t.closings, HadTriad, HadCommand);
    forall k | k in t.state.active
      ensures t.state.active[k].hasStartTriad == t.state.active[k].individualNs92Allowed
      ensures t.state.active[k].hasStartTriad <==>
              t.state.active[k].cmd.Some? && t.state.active[k].metaData.Some? &&
              t.state.active[k].transactionHeader.Some?
    {
      TriadFlags(t.state.active[k]);
    }
    SubsetCount(Confirmed(t.state.active), Commanded(t.state.active));
  }
}
