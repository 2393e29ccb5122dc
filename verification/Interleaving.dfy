/** The machine serves many registers; each one behaves as if it were alone. */
module Interleaving {
  import opened Collections
  import opened Payload
  import opened Register
  import opened Sweeps
  import opened Aggregation
  import opened Invariants

  datatype Message = Message(ip: string, input: Input)

  /** All registers, and the two queues they share. */
  datatype Machine = Machine(registers: map<string, Trace>, ns91: seq<Etag>, ns92: seq<Etag>)

  function Before(m: Machine, msg: Message): Trace {
    if msg.ip in m.registers then m.registers[msg.ip] else Fresh(msg.ip, msg.input.clock.arrival)
  }

  /** What `after` has beyond `before`. */
  function Beyond<T>(before: seq<T>, after: seq<T>): seq<T> {
    if |before| <= |after| then after[|before|..] else []
  }

  ghost function MachineStep(m: Machine, msg: Message): Machine {
    var before := Before(m, msg);
    var after := Step(before, msg.input);
    Machine(m.registers[msg.ip := after],
            m.ns91 + Ns91Etags(Beyond(before.closings, after.closings)),
            m.ns92 + Beyond(before.ns92, after.ns92))
  }

  ghost function MachineRun(msgs: seq<Message>): Machine {
    if msgs == [] then Machine(map[], [], []) else MachineStep(MachineRun(Front(msgs)), Last(msgs))
  }

  ghost predicate ValidMessages(msgs: seq<Message>) {
    msgs == [] ||
    (ValidMessages(Front(msgs)) && ValidChoice(Before(MachineRun(Front(msgs)), Last(msgs)), Last(msgs).input))
  }

  /** The events of one register, in order. */
  function ForIp(msgs: seq<Message>, ip: string): seq<Input> {
    if msgs == [] then [] else
      ForIp(Front(msgs), ip) + if Last(msgs).ip == ip then [Last(msgs).input] else []
  }

  /** That register on a machine of its own. */
  function Alone(ip: string, inputs: seq<Input>): Trace {
    Run(Fresh(ip, if inputs == [] then 0 else inputs[0].clock.arrival), inputs)
  }

  function OfRegister(etags: seq<Etag>, ip: string): seq<Etag> {
    if etags == [] then [] else
      OfRegister(Front(etags), ip) + if Last(etags).registerIP == ip then [Last(etags)] else []
  }

  /** What a machine that stored the next state of one register and appended to the
      queues has reached. */
  lemma RecordStep(m: Machine, msgs: seq<Message>, msg: Message, after: Machine)
    requires ValidMessages(msgs) && m == MachineRun(msgs) && ValidChoice(Before(m, msg), msg.input)
    requires var t, u := Before(m, msg), Step(Before(m, msg), msg.input);
             after.registers == m.registers[msg.ip := u] &&
             Offered91(m.ns91, t.closings, after.ns91, u.closings) && Offered92(m.ns92, t.ns92, after.ns92, u.ns92)
    ensures ValidMessages(msgs + [msg]) && MachineRun(msgs + [msg]) == after
  {
    hide Step, ValidChoice, Ns91Etags;
    assert Front(msgs + [msg]) == msgs && Last(msgs + [msg]) == msg;
  }

  // ----- filters -----

  lemma {:induction false} OfRegisterAppend(a: seq<Etag>, b: seq<Etag>, ip: string)
    ensures OfRegister(a + b, ip) == OfRegister(a, ip) + OfRegister(b, ip)
  {
    if b == [] {
      assert a + b == a;
    } else {
      assert Front(a + b) == a + Front(b) && Last(a + b) == Last(b);
      OfRegisterAppend(a, Front(b), ip);
    }
  }

  ghost predicate AllFrom(etags: seq<Etag>, ip: string) {
    forall i :: 0 <= i < |etags| ==> etags[i].registerIP == ip
  }

  lemma {:induction false} OfRegisterAllFrom(etags: seq<Etag>, from: string, ip: string)
    requires AllFrom(etags, from)
    ensures OfRegister(etags, ip) == if from == ip then etags else []
  {
    if etags == [] {
    } else {
      OfRegisterAllFrom(Front(etags), from, ip);
      assert etags == Front(etags) + [Last(etags)];
    }
  }

  // ----- a step emits for its own register only -----

  lemma {:induction false} Ns92From(ip: string, txn: string, offers: seq<Offer>, first: nat)
    ensures AllFrom(Ns92Etags(ip, txn, offers, first), ip)
  {
    hide EtagIdOf;
    if offers == [] {
    } else {
      Ns92From(ip, txn, Front(offers), first);
    }
  }

  lemma {:induction false} Ns91From(closings: seq<Closing>, ip: string)
    requires forall i :: 0 <= i < |closings| ==> closings[i].transaction.registerIP == ip
    ensures AllFrom(Ns91Etags(closings), ip)
  {
    hide EtagIdOf, Ns91Pos, FinalStatus;
    if closings == [] {
    } else {
      Ns91From(Front(closings), ip);
    }
  }

  // ----- invariant of the machine -----

  ghost predicate RegisterOk(t: Trace, ip: string) {
    Inv(t) && t.state.registerIP == ip && AllFrom(t.ns92, ip)
  }

  lemma HandleTransactionNs92(t: Trace, txn: string, a: Arrival, esns: seq<string>)
    requires ActiveOk(t.state) && AllFrom(t.ns92, t.state.registerIP)
    ensures AllFrom(HandleTransaction(t, txn, a, esns).ns92, t.state.registerIP)
  {
    var before := Target(t.state, txn, a.clock.now);
    var ip := t.state.registerIP;
    assert before.registerIP == ip by {
      if txn in t.state.active {
        TransactionKey(t.state.active[txn], txn, ip);
      }
    }
    ReceiveContinues(before, a, esns);
    hide Receive, NewTransaction, ActiveOk, Ns92Etags;
    Ns92From(ip, before.transactionSeq, Receive(before, a, esns).offers[|before.offers|..], before.seqCounter);
  }

  lemma StepRegisterOk(t: Trace, input: Input, ip: string)
    requires RegisterOk(t, ip) && ValidChoice(t, input)
    ensures RegisterOk(Step(t, input), ip)
  {
    StepInv(t, input);
    StepExtends(t, input);
    SweepInv(t, input);
    SweepNs92(t, input);
    ArriveInv(Sweep(t, input), NextArrival(t, input));
    var p, a, d := Prepare(t, input), NextArrival(t, input), input.choice.dispatch;
    assert ActiveOk(p.state);
    assert p.state.registerIP == ip by { StepIp(t, input); }
    AbandonState(p, d.abandoned, StartSeen, input.esns);
    AbandonState(p, d.abandoned, EndSeenOther, input.esns);
    FlushGroupsState(p, d.flushed, input.esns);
    hide Inv, ActiveOk, ValidChoice, Prepare, Sweep, FlushGroups, Abandon, IsStartDemarcator, IsEndDemarcator, Route,
         HandleTransaction, Collect, GroupFor, GroupComplete, GroupTransaction, StringAt, AllFrom;
    if !IsDemarcator(a.event) {
      var route := Route(p.state, a.event, d.latest);
      if route.Some? {
        HandleTransactionNs92(p, route.value, a, input.esns);
      }
    }
  }

  lemma StepIp(t: Trace, input: Input)
    ensures Prepare(t, input).state.registerIP == t.state.registerIP
  {
    FlushGroupsState(t, input.choice.staleGroups, input.esns);
    TimeOutsState(FlushGroups(t, input.choice.staleGroups, input.esns), input.choice.timedOut,
                  input.clock.transactionSweep, input.esns);
  }

  lemma SweepNs92(t: Trace, input: Input)
    ensures Prepare(t, input).ns92 == t.ns92
  {
    FlushGroupsState(t, input.choice.staleGroups, input.esns);
    TimeOutsState(FlushGroups(t, input.choice.staleGroups, input.esns), input.choice.timedOut,
                  input.clock.transactionSweep, input.esns);
  }

  lemma FreshRegisterOk(ip: string, created: nat)
    ensures RegisterOk(Fresh(ip, created), ip)
  {
    FreshInv(ip, created);
  }

  // ----- independence -----

  ghost predicate ValidAlone(ip: string, inputs: seq<Input>) {
    inputs != [] && ValidRun(Fresh(ip, inputs[0].clock.arrival), inputs)
  }

  ghost predicate AsIfAlone(m: Machine, msgs: seq<Message>, ip: string) {
    var own := Alone(ip, ForIp(msgs, ip));
    (ip in m.registers <==> ForIp(msgs, ip) != []) &&
    (ip in m.registers ==> m.registers[ip] == own && RegisterOk(own, ip) && ValidAlone(ip, ForIp(msgs, ip))) &&
    OfRegister(m.ns92, ip) == own.ns92 &&
    OfRegister(m.ns91, ip) == Ns91Etags(own.closings)
  }

  /** One more event of the same register. */
  lemma AloneSnoc(ip: string, inputs: seq<Input>, input: Input)
    ensures Alone(ip, inputs + [input]) ==
            Step(if inputs == [] then Fresh(ip, input.clock.arrival) else Alone(ip, inputs), input)
  {
    hide Step, Fresh;
    assert Front(inputs + [input]) == inputs && Last(inputs + [input]) == input;
    if inputs == [] {
      assert Alone(ip, inputs + [input]) == Step(Run(Fresh(ip, input.clock.arrival), []), input);
    }
  }

  lemma ValidAloneSnoc(ip: string, inputs: seq<Input>, input: Input)
    requires inputs != [] ==> ValidAlone(ip, inputs)
    requires ValidChoice(if inputs == [] then Fresh(ip, input.clock.arrival) else Alone(ip, inputs), input)
    ensures ValidAlone(ip, inputs + [input])
  {
    hide Step, Fresh, ValidChoice;
    RunSnoc(Fresh(ip, (inputs + [input])[0].clock.arrival), inputs, input);
  }

  lemma OwnEmissions(t: Trace, input: Input, from: string, ip: string)
    requires RegisterOk(t, from) && ValidChoice(t, input)
    ensures var u := Step(t, input);
            OfRegister(Beyond(t.ns92, u.ns92), ip) == (if from == ip then Beyond(t.ns92, u.ns92) else []) &&
            OfRegister(Ns91Etags(Beyond(t.closings, u.closings)), ip) ==
            (if from == ip then Ns91Etags(Beyond(t.closings, u.closings)) else [])
  {
    StepRegisterOk(t, input, from);
    StepExtends(t, input);
    var u := Step(t, input);
    var c := Beyond(t.closings, u.closings);
    assert forall i :: 0 <= i < |c| ==> c[i].transaction.registerIP == from by {
      ClosingsFrom(u);
    }
    hide Inv, Step, ValidChoice, Ns91Etags;
    Ns91From(c, from);
    OfRegisterAllFrom(Ns91Etags(c), from, ip);
    OfRegisterAllFrom(Beyond(t.ns92, u.ns92), from, ip);
  }

  lemma ClosingsFrom(t: Trace)
    requires Inv(t)
    ensures forall i :: 0 <= i < |t.closings| ==> t.closings[i].transaction.registerIP == t.state.registerIP
  {
    hide ActiveOk, GroupsOk, StartsOk, TransactionOk, GroupOk;
  }

  lemma Queues(t: Trace, input: Input)
    ensures var u := Step(t, input);
            u.ns92 == t.ns92 + Beyond(t.ns92, u.ns92) &&
            Ns91Etags(u.closings) == Ns91Etags(t.closings) + Ns91Etags(Beyond(t.closings, u.closings))
  {
    StepExtends(t, input);
    var u := Step(t, input);
    hide Step, Ns91Etags;
    Ns91EtagsAppend(t.closings, Beyond(t.closings, u.closings));
    assert u.closings == t.closings + Beyond(t.closings, u.closings);
  }

  lemma StepAlone(m: Machine, msgs: seq<Message>, msg: Message, ip: string)
    requires AsIfAlone(m, msgs, ip) && AsIfAlone(m, msgs, msg.ip) && ValidChoice(Before(m, msg), msg.input)
    ensures AsIfAlone(MachineStep(m, msg), msgs + [msg], ip)
  {
    hide Step, Fresh, RegisterOk, ValidChoice, OfRegister, Ns91Etags, Alone, Beyond, ValidAlone;
    assert Front(msgs + [msg]) == msgs && Last(msgs + [msg]) == msg;
    var before := Before(m, msg);
    var after := Step(before, msg.input);
    FreshRegisterOk(msg.ip, msg.input.clock.arrival);
    OwnEmissions(before, msg.input, msg.ip, ip);
    OfRegisterAppend(m.ns92, Beyond(before.ns92, after.ns92), ip);
    OfRegisterAppend(m.ns91, Ns91Etags(Beyond(before.closings, after.closings)), ip);
    if msg.ip == ip {
      AloneSnoc(ip, ForIp(msgs, ip), msg.input);
      ValidAloneSnoc(ip, ForIp(msgs, ip), msg.input);
      StepRegisterOk(before, msg.input, ip);
      Queues(before, msg.input);
      AloneStarts(ip, msg.input.clock.arrival);
      assert ForIp(msgs + [msg], ip) == ForIp(msgs, ip) + [msg.input];
    } else {
      assert ForIp(msgs + [msg], ip) == ForIp(msgs, ip);
    }
  }

  /** A register not seen yet has recorded nothing. */
  lemma AloneStarts(ip: string, created: nat)
    ensures Alone(ip, []).ns92 == Fresh(ip, created).ns92 && Alone(ip, []).closings == Fresh(ip, created).closings
  {
  }

  /** For any interleaving of the events of any number of registers, every
      register ends in the state, and offers the records, of a machine that
      received only its own events. */
  lemma {:induction false} Independence(msgs: seq<Message>, ip: string)
    requires ValidMessages(msgs)
    ensures AsIfAlone(MachineRun(msgs), msgs, ip)
  {
    hide MachineStep, ValidChoice, AsIfAlone;
    if msgs == [] {
      NothingYet(ip);
    } else {
      Independence(Front(msgs), ip);
      Independence(Front(msgs), Last(msgs).ip);
      StepAlone(MachineRun(Front(msgs)), Front(msgs), Last(msgs), ip);
      assert Front(msgs) + [Last(msgs)] == msgs;
    }
  }

  lemma NothingYet(ip: string)
    ensures AsIfAlone(MachineRun([]), [], ip)
  {
  }
}
