/** The NS92 queue of a register: an interleaving of its transactions' own records. */
module Ledger {
  import opened Collections
  import opened Payload
  import opened Register
  import opened Transactions
  import opened Invariants
  import opened Numbering
  import opened Conservation

  /** The records of one place, in the order they were offered. */
  function RecordEtags(t: Trace, h: Holder): seq<Etag> {
    match h
    case Live(txn) => if txn in t.state.active then AllEtags(t.state.active[txn]) else []
    case Waiting(_) => []
    case Closed(i) => if i < |t.closings| then AllEtags(t.closings[i].transaction) else []
  }

  /** The records whose label is `h`, in queue order. */
  function Pick(etags: seq<Etag>, labels: seq<Holder>, h: Holder): seq<Etag>
    requires |etags| == |labels|
  {
    if etags == [] then [] else
      Pick(Front(etags), Front(labels), h) + if Last(labels) == h then [Last(etags)] else []
  }

  /** The labels say for every record in the queue whose it is: those of each
      transaction, closed or active, are exactly its own, in its own order. */
  ghost predicate Labels(t: Trace, labels: seq<Holder>) {
    |labels| == |t.ns92| && forall h :: Pick(t.ns92, labels, h) == RecordEtags(t, h)
  }

  ghost predicate Balanced(t: Trace) {
    exists labels :: Labels(t, labels)
  }

  // ----- labels -----

  function Repeat(h: Holder, n: nat): seq<Holder> {
    seq(n, i => h)
  }

  lemma {:induction false} PickAppend(etags: seq<Etag>, labels: seq<Holder>, more: seq<Etag>, owner: Holder, h: Holder)
    requires |etags| == |labels|
    ensures Pick(etags + more, labels + Repeat(owner, |more|), h) ==
            Pick(etags, labels, h) + if h == owner then more else []
  {
    if more == [] {
      assert etags + more == etags && labels + Repeat(owner, 0) == labels;
    } else {
      PickAppend(etags, labels, Front(more), owner, h);
      var all, owners := etags + more, labels + Repeat(owner, |more|);
      assert Front(all) == etags + Front(more) && Last(all) == Last(more);
      assert Front(owners) == labels + Repeat(owner, |more| - 1) && Last(owners) == owner;
      assert more == Front(more) + [Last(more)];
    }
  }

  function Relabel(labels: seq<Holder>, from: Holder, to: Holder): (r: seq<Holder>)
    ensures |r| == |labels|
  {
    if labels == [] then [] else
      Relabel(Front(labels), from, to) + [if Last(labels) == from then to else Last(labels)]
  }

  lemma {:induction false} RelabelPick(etags: seq<Etag>, labels: seq<Holder>, from: Holder, to: Holder, h: Holder)
    requires |etags| == |labels| && from != to && Pick(etags, labels, to) == []
    ensures Pick(etags, Relabel(labels, from, to), h) ==
            if h == to then Pick(etags, labels, from) else if h == from then [] else Pick(etags, labels, h)
  {
    if etags == [] {
    } else {
      RelabelPick(Front(etags), Front(labels), from, to, h);
      RelabelLast(labels, from, to);
      hide Relabel;
    }
  }

  lemma RelabelLast(labels: seq<Holder>, from: Holder, to: Holder)
    requires labels != []
    ensures Front(Relabel(labels, from, to)) == Relabel(Front(labels), from, to)
    ensures Last(Relabel(labels, from, to)) == if Last(labels) == from then to else Last(labels)
  {
  }

  /** A place changes its name. */
  lemma MoveBalanced(before: Trace, after: Trace, from: Holder, to: Holder)
    requires Balanced(before) && after.ns92 == before.ns92 && from != to && RecordEtags(before, to) == []
    requires forall h :: RecordEtags(after, h) ==
               if h == to then RecordEtags(before, from) else if h == from then [] else RecordEtags(before, h)
    ensures Balanced(after)
  {
    hide RecordEtags;
    var labels :| Labels(before, labels);
    var moved := Relabel(labels, from, to);
    forall h ensures Pick(after.ns92, moved, h) == RecordEtags(after, h) {
      RelabelPick(before.ns92, labels, from, to, h);
    }
    assert Labels(after, moved);
  }

  lemma SameBalanced(before: Trace, after: Trace)
    requires Balanced(before) && after.ns92 == before.ns92
    requires forall h :: RecordEtags(after, h) == RecordEtags(before, h)
    ensures Balanced(after)
  {
    hide RecordEtags;
    var labels :| Labels(before, labels);
    assert Labels(after, labels);
  }

  // ----- what each step does -----

  lemma CloseBalanced(t: Trace, txn: string, requested: Option<Status>, cause: Cause, esns: seq<string>)
    requires Balanced(t)
    ensures Balanced(CloseTransaction(t, txn, requested, cause, esns))
  {
    hide AllEtags, Balanced;
    if txn in t.state.active {
      MoveBalanced(t, CloseTransaction(t, txn, requested, cause, esns), Live(txn), Closed(|t.closings|));
    }
  }

  lemma FlushBalanced(t: Trace, key: nat, esns: seq<string>)
    requires Balanced(t)
    ensures Balanced(FlushGroup(t, key, esns))
  {
    if key in t.state.groups {
      var c := Closing(GroupTransaction(t.state.groups[key]), Some(Unknown), UnknownFlush, esns);
      assert AllEtags(c.transaction) == [];
      hide AllEtags, Balanced, GroupTransaction;
      SameBalanced(t, FlushGroup(t, key, esns));
    }
  }

  lemma {:induction false} FlushGroupsBalanced(t: Trace, keys: seq<nat>, esns: seq<string>)
    requires Balanced(t)
    ensures Balanced(FlushGroups(t, keys, esns))
  {
    hide Balanced, FlushGroup;
    if keys == [] {
    } else {
      FlushGroupsBalanced(t, Front(keys), esns);
      FlushBalanced(FlushGroups(t, Front(keys), esns), Last(keys), esns);
    }
  }

  lemma {:induction false} TimeOutsBalanced(t: Trace, txns: seq<string>, now: nat, esns: seq<string>)
    requires Balanced(t)
    ensures Balanced(TimeOuts(t, txns, now, esns))
  {
    hide Balanced, CloseTransaction;
    if txns == [] {
    } else {
      TimeOutsBalanced(t, Front(txns), now, esns);
      var before := TimeOuts(t, Front(txns), now, esns);
      if Last(txns) in before.state.active {
        var tx := before.state.active[Last(txns)];
        CloseBalanced(before, Last(txns), TimeoutStatus(tx, now), TimeoutCause(tx, now), esns);
      }
    }
  }

  lemma {:induction false} AbandonBalanced(t: Trace, txns: seq<string>, cause: Cause, esns: seq<string>)
    requires Balanced(t)
    ensures Balanced(Abandon(t, txns, cause, esns))
  {
    hide Balanced, CloseTransaction;
    if txns == [] {
    } else {
      AbandonBalanced(t, Front(txns), cause, esns);
      CloseBalanced(Abandon(t, Front(txns), cause, esns), Last(txns), Some(Abandoned), cause, esns);
    }
  }

  lemma PutBalanced(t: Trace, txn: string, tx: Transaction, more: seq<Etag>, pending: Option<nat>)
    requires Balanced(t)
    requires AllEtags(tx) == (if txn in t.state.active then AllEtags(t.state.active[txn]) else []) + more
    ensures Balanced(t.(state := t.state.(active := t.state.active[txn := tx], pendingStart := pending),
                        ns92 := t.ns92 + more))
  {
    var after := t.(state := t.state.(active := t.state.active[txn := tx], pendingStart := pending),
                    ns92 := t.ns92 + more);
    var labels :| Labels(t, labels);
    var all := labels + Repeat(Live(txn), |more|);
    hide AllEtags;
    forall h ensures Pick(after.ns92, all, h) == RecordEtags(after, h) {
      PickAppend(t.ns92, labels, more, Live(txn), h);
      assert RecordEtags(after, h) == RecordEtags(t, h) + if h == Live(txn) then more else [];
    }
    assert Labels(after, all);
  }

  lemma EndLatestBalanced(t: Trace, latest: string, e: Event, esns: seq<string>)
    requires Balanced(t)
    ensures Balanced(EndLatest(t, latest, e, esns))
  {
    if latest in t.state.active && !t.state.active[latest].ns91Sent {
      if t.state.active[latest].individualNs92Allowed {
        var tx := t.state.active[latest];
        var cmd := StringAt(e, "CMD");
        var done := tx.(isComplete := true, endCmd := if cmd.Some? then cmd.value else tx.endCmd);
        assert AllEtags(done) == AllEtags(tx) + [];
        hide Balanced, CloseTransaction, StringAt, AllEtags;
        PutBalanced(t, latest, done, [], t.state.pendingStart);
        assert t.ns92 + [] == t.ns92;
        var marked := t.(state := t.state.(active := t.state.active[latest := done]));
        CloseBalanced(marked, latest, None, EndSeenLatest, esns);
      } else {
        hide Balanced, CloseTransaction;
        CloseBalanced(t, latest, Some(Abandoned), EndSeenLatest, esns);
      }
    }
  }

  /** Receiving an event appends exactly the new records to the transaction's own. */
  lemma ReceiveEtags(tx: Transaction, a: Arrival, esns: seq<string>)
    requires NumbersSound(tx)
    ensures Continues(tx, Receive(tx, a, esns))
    ensures AllEtags(Receive(tx, a, esns)) == AllEtags(tx) + NewEtags(tx, Receive(tx, a, esns))
  {
    ReceiveContinues(tx, a, esns);
    var after := Receive(tx, a, esns);
    hide Receive, Ns92Etags, Total;
    var more := after.offers[|tx.offers|..];
    assert after.offers == tx.offers + more;
    Ns92EtagsAppend(tx.registerIP, tx.transactionSeq, tx.offers, more, 1);
  }

  lemma HandleTransactionBalanced(t: Trace, txn: string, a: Arrival, esns: seq<string>)
    requires Balanced(t) && (txn in t.state.active ==> NumbersSound(t.state.active[txn]))
    ensures Balanced(HandleTransaction(t, txn, a, esns))
  {
    var before := Target(t.state, txn, a.clock.now);
    assert NumbersSound(before);
    assert txn !in t.state.active ==> AllEtags(before) == [];
    hide Balanced, NumbersSound, Receive, NewEtags, Continues, AllEtags, NewTransaction;
    ReceiveEtags(before, a, esns);
    var after := Receive(before, a, esns);
    PutBalanced(t, txn, after, NewEtags(before, after), if txn in t.state.active then t.state.pendingStart else None);
  }

  lemma HandleUnknownBalanced(t: Trace, a: Arrival, esns: seq<string>)
    requires Balanced(t)
    ensures Balanced(HandleUnknown(t, a, esns))
  {
    hide Collect, GroupFor, GroupComplete, FlushGroup, Window, Balanced;
    var key := Window(a.clock.now);
    var g := Collect(GroupFor(t.state, key, a.clock.now), a);
    var stored := t.(state := t.state.(groups := t.state.groups[key := g]));
    SameBalanced(t, stored);
    FlushBalanced(stored, key, esns);
  }

  lemma SetPendingBalanced(t: Trace, pending: Option<nat>)
    requires Balanced(t)
    ensures Balanced(t.(state := t.state.(pendingStart := pending)))
  {
    SameBalanced(t, t.(state := t.state.(pendingStart := pending)));
  }

  lemma ArriveBalanced(t: Trace, a: Arrival)
    requires Balanced(t)
    ensures Balanced(Arrive(t, a))
  {
    SameBalanced(t, Arrive(t, a));
  }

  lemma StepBalanced(t: Trace, input: Input)
    requires Balanced(t) && Inv(t) && ValidChoice(t, input)
    ensures Balanced(Step(t, input))
  {
    hide Balanced, Inv, FlushGroups, TimeOuts, Arrive, Abandon, EndLatest, HandleTransaction, HandleUnknown, Route,
         StringAt, ValidChoice;
    FlushGroupsBalanced(t, input.choice.staleGroups, input.esns);
    TimeOutsBalanced(FlushGroups(t, input.choice.staleGroups, input.esns), input.choice.timedOut,
                     input.clock.transactionSweep, input.esns);
    SweepInv(t, input);
    var a, d := NextArrival(t, input), input.choice.dispatch;
    ArriveBalanced(Sweep(t, input), a);
    ArriveInv(Sweep(t, input), a);
    var p := Prepare(t, input);
    hide Prepare, Sweep;
    if IsStartDemarcator(a.event) {
      AbandonBalanced(p, d.abandoned, StartSeen, input.esns);
      SetPendingBalanced(Abandon(p, d.abandoned, StartSeen, input.esns), Some(a.clock.now));
    } else if IsEndDemarcator(a.event) {
      EndBalanced(p, a.event, d, input.esns);
    } else {
      var route := Route(p.state, a.event, d.latest);
      if route.Some? {
        NumbersOf(p, route.value);
        HandleTransactionBalanced(p, route.value, a, input.esns);
      } else {
        HandleUnknownBalanced(p, a, input.esns);
      }
    }
  }

  lemma EndBalanced(t: Trace, e: Event, d: Dispatching, esns: seq<string>)
    requires Balanced(t)
    ensures Balanced(HandleEnd(t, e, d, esns))
  {
    hide Balanced, FlushGroups, Abandon, EndLatest;
    FlushGroupsBalanced(t, d.flushed, esns);
    SetPendingBalanced(FlushGroups(t, d.flushed, esns), None);
    var closed := Abandon(t, d.abandoned, EndSeenOther, esns);
    AbandonBalanced(t, d.abandoned, EndSeenOther, esns);
    SetPendingBalanced(closed, None);
    EndLatestBalanced(DropPendingStart(closed), d.latest, e, esns);
  }

  lemma NumbersOf(t: Trace, txn: string)
    requires Inv(t)
    ensures txn in t.state.active ==> NumbersSound(t.state.active[txn])
  {
    hide StreamSound, FieldsSound, TimesSound;
  }

  /** In every run: the NS92 queue of a register is an interleaving of the records
      of its transactions, closed and active, each in its own order. */
  lemma {:induction false} LedgerOfRun(ip: string, created: nat, inputs: seq<Input>)
    requires ValidRun(Fresh(ip, created), inputs)
    ensures Balanced(Run(Fresh(ip, created), inputs))
  {
    hide Step, ValidChoice, Inv, Balanced, Fresh;
    if inputs == [] {
      FreshBalanced(ip, created);
    } else {
      LedgerOfRun(ip, created, Front(inputs));
      RunInv(ip, created, Front(inputs));
      StepBalanced(Run(Fresh(ip, created), Front(inputs)), Last(inputs));
    }
  }

  lemma FreshBalanced(ip: string, created: nat)
    ensures Balanced(Fresh(ip, created))
  {
    assert Labels(Fresh(ip, created), []);
  }

  // ----- identities -----

  lemma {:induction false} PickHas(etags: seq<Etag>, labels: seq<Holder>, i: nat)
    requires |etags| == |labels| && i < |etags|
    ensures etags[i] in Pick(etags, labels, labels[i])
  {
    if i == |etags| - 1 {
      assert etags[i] == Last(etags) && labels[i] == Last(labels);
    } else {
      PickHas(Front(etags), Front(labels), i);
    }
  }

  lemma {:induction false} EtagsRandom(ip: string, txn: string, offers: seq<Offer>, first: nat)
    ensures forall e :: e in Ns92Etags(ip, txn, offers, first) ==> e.id == Random
  {
    hide OfferEtags;
    if offers == [] {
    } else {
      EtagsRandom(ip, txn, Front(offers), first);
      OfferRandom(ip, txn, Last(offers), (first + Total(Front(offers))) % UINT16);
    }
  }

  /** The wrapper has no metaData of its own. */
  lemma OfferRandom(ip: string, txn: string, offer: Offer, first: nat)
    ensures forall e :: e in OfferEtags(ip, txn, offer, first) ==> e.id == Random
  {
    assert EtagIdOf(ip, map["_pos" := Obj(offer.pos)]) == Random;
    hide EtagIdOf;
  }

  lemma RecordsRandom(t: Trace, h: Holder)
    ensures forall e :: e in RecordEtags(t, h) ==> e.id == Random
  {
    hide Ns92Etags;
    match h
    case Live(txn) =>
      if txn in t.state.active {
        var tx := t.state.active[txn];
        EtagsRandom(tx.registerIP, tx.transactionSeq, tx.offers, 1);
      }
    case Waiting(_) =>
    case Closed(i) =>
      if i < |t.closings| {
        var tx := t.closings[i].transaction;
        EtagsRandom(tx.registerIP, tx.transactionSeq, tx.offers, 1);
      }
  }

  /** In every run no NS92 has a name-based identity. */
  lemma IdentitiesOfRun(ip: string, created: nat, inputs: seq<Input>)
    requires ValidRun(Fresh(ip, created), inputs)
    ensures forall e :: e in Run(Fresh(ip, created), inputs).ns92 ==> e.id == Random
  {
    LedgerOfRun(ip, created, inputs);
    var t := Run(Fresh(ip, created), inputs);
    var labels :| Labels(t, labels);
    hide Run, RecordEtags;
    forall e | e in t.ns92 ensures e.id == Random {
      var i :| 0 <= i < |t.ns92| && t.ns92[i] == e;
      PickHas(t.ns92, labels, i);
      RecordsRandom(t, labels[i]);
    }
  }
}
