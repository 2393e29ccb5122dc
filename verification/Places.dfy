/** Over every run: which record an event is in, what the record holds, when its timer
    runs, and which cameras it was sent to. */
module Places {
  import opened Collections
  import opened Payload
  import opened Register
  import opened Sweeps
  import opened Transactions
  import opened Invariants
  import opened Conservation
  import opened Numbering
  import opened Reading
  import opened Contents
  import opened Effects

  // ----- one step of every run -----

  /** In every run, the last event did to the register what its fields say. */
  lemma EffectsOfRun(ip: string, created: nat, inputs: seq<Input>)
    requires ValidRun(Fresh(ip, created), inputs) && inputs != []
    ensures var t, u := Run(Fresh(ip, created), Front(inputs)), Run(Fresh(ip, created), inputs);
            var input, e := Last(inputs), Last(inputs).event;
            (Commands(e, "StartTransaction") ==>
               u.state.active == map[] && GroupsKept(t, input, u) && u.state.pendingStart == Some(input.clock.now)) &&
            (Commands(e, "EndTransaction") ==>
               u.state.active == map[] && u.state.pendingStart == None &&
               if AnySurvives(t, input) then GroupsKept(t, input, u) else u.state.groups == map[]) &&
            (!Demarcates(e) ==> Placed(t, input, u))
  {
    hide Step, Inv, ValidChoice, Placed, GroupsKept, AnySurvives, Fresh;
    RunInv(ip, created, Front(inputs));
    var t, input := Run(Fresh(ip, created), Front(inputs)), Last(inputs);
    if Commands(input.event, "StartTransaction") {
      StartEffect(t, input);
    } else if Commands(input.event, "EndTransaction") {
      EndEffect(t, input);
    } else {
      OrdinaryEffect(t, input);
    }
  }

  /** In every run, whatever the last event closed was closed for one of the reasons
      its fields give, and an end completes one newest transaction. */
  lemma ClosingsOfRun(ip: string, created: nat, inputs: seq<Input>) returns (latest: string)
    requires ValidRun(Fresh(ip, created), inputs) && inputs != []
    ensures var t, u := Run(Fresh(ip, created), Front(inputs)), Run(Fresh(ip, created), inputs);
            var input := Last(inputs);
            (Commands(input.event, "EndTransaction") && AnySurvives(t, input) ==> IsNewest(t, input, latest)) &&
            t.closings <= u.closings &&
            forall i :: |t.closings| <= i < |u.closings| ==> Sent(t, input, latest, u.closings[i])
  {
    RunInv(ip, created, Front(inputs));
    hide Step, Inv, ValidChoice, Sent, AnySurvives, IsNewest, Fresh;
    latest := ClosingsEffect(Run(Fresh(ip, created), Front(inputs)), Last(inputs));
  }

  // ----- which record -----

  lemma HeldNumbers(ip: string, created: nat, inputs: seq<Input>, h: Holder, a: Arrival)
    requires ValidRun(Fresh(ip, created), inputs) && a in Held(Run(Fresh(ip, created), inputs), h)
    ensures var t := Run(Fresh(ip, created), inputs);
            match h
            case Live(k) => k in t.state.active && BelongsTo(a.event, k)
            case Waiting(_) => TransactionSeqOf(a.event) == ""
            case Closed(i) =>
              i < |t.closings| &&
              (t.closings[i].cause == UnknownFlush ==> TransactionSeqOf(a.event) == "") &&
              BelongsTo(a.event, t.closings[i].transaction.transactionSeq)
  {
    RunInv(ip, created, inputs);
    var t := Run(Fresh(ip, created), inputs);
    hide Run, ValidRun, Sound, BelongsTo, TransactionSeqOf, StartsOk, GroupComplete, Window, IsDemarcator;
    match h
    case Live(k) =>
    case Waiting(k) =>
      assert GroupOk(t.state.groups[k], k, t.state.registerIP);
    case Closed(i) =>
      ClosingNumbers(t.closings[i], t.state.registerIP, a);
  }

  lemma ClosingNumbers(c: Closing, ip: string, a: Arrival)
    requires ClosingOk(c, ip) && a in c.transaction.routed
    ensures c.cause == UnknownFlush ==> TransactionSeqOf(a.event) == ""
    ensures BelongsTo(a.event, c.transaction.transactionSeq)
  {
    hide Sound, TransactionSeqOf, Window, IsDemarcator, EventsOf;
    if c.cause == EndSeenLatest {
      assert a in Unmarked(c.transaction).routed;
    }
  }

  /** In every run, an event that carries a transaction number, and commands no start
      or end, is in exactly one place: the transaction of that number, active or
      closed. */
  lemma NumbersPlaced(ip: string, created: nat, inputs: seq<Input>, i: nat, n: string)
    requires ValidRun(Fresh(ip, created), inputs) && i < |inputs|
    requires !Demarcates(inputs[i].event) && CarriesNumber(inputs[i].event, n)
    ensures var t := Run(Fresh(ip, created), inputs);
            var a := Arrival(i, inputs[i].event, inputs[i].clock);
            exists h :: a in Held(t, h) && (forall h' :: a in Held(t, h') ==> h' == h) && !h.Waiting? &&
                        (h.Live? ==> h.txn == n) &&
                        (h.Closed? ==> h.index < |t.closings| && t.closings[h.index].requested != Some(Unknown) &&
                                       t.closings[h.index].transaction.transactionSeq == n)
  {
    hide IsDemarcator, FromLog, CarriesNumber, TransactionSeqOf, Held, Demarcates, ValidRun, Fresh, Run;
    EventsConserved(ip, created, inputs);
    Readings(inputs[i].event);
    RouteRead(inputs[i].event);
    var t := Run(Fresh(ip, created), inputs);
    var a := Arrival(i, inputs[i].event, inputs[i].clock);
    assert t.log[i] == a && HeldSomewhere(t, a);
    var h :| a in Held(t, h);
    HeldNumbers(ip, created, inputs, h, a);
    if h.Closed? {
      RequestedIs(ip, created, inputs, h.index);
    }
  }

  lemma RequestedIs(ip: string, created: nat, inputs: seq<Input>, i: nat)
    requires ValidRun(Fresh(ip, created), inputs) && i < |Run(Fresh(ip, created), inputs).closings|
    ensures var c := Run(Fresh(ip, created), inputs).closings[i];
            c.requested == Some(Unknown) <==> c.cause == UnknownFlush
  {
    RunInv(ip, created, inputs);
    hide Run, ValidRun, TransactionOk, GroupOk, ActiveOk, GroupsOk, StartsOk;
  }

  // ----- what the record holds -----

  lemma RecordSound(ip: string, created: nat, inputs: seq<Input>, tx: Transaction)
    requires ValidRun(Fresh(ip, created), inputs) && RecordOf(Run(Fresh(ip, created), inputs), tx)
    ensures Sound(Unmarked(tx)) && tx.routed != [] && tx.registerIP == ip
  {
    hide Run, ValidRun, TransactionOk, ClosingOk, GroupsOk, StartsOk, Sound;
    RunInv(ip, created, inputs);
    RunIp(ip, created, inputs);
    var t := Run(Fresh(ip, created), inputs);
    if k :| k in t.state.active && t.state.active[k] == tx {
      ActiveSound(tx, k, ip);
    } else {
      var i :| 0 <= i < |t.closings| && t.closings[i].cause != UnknownFlush && t.closings[i].transaction == tx;
      ClosedSound(t.closings[i], ip);
    }
  }

  lemma ActiveSound(tx: Transaction, key: string, ip: string)
    requires TransactionOk(tx, key, ip)
    ensures Sound(Unmarked(tx)) && tx.routed != [] && tx.registerIP == ip
  {
    UnmarkedSame(tx);
    hide Sound;
  }

  lemma ClosedSound(c: Closing, ip: string)
    requires ClosingOk(c, ip) && c.cause != UnknownFlush
    ensures Sound(Unmarked(c.transaction)) && c.transaction.routed != [] && c.transaction.registerIP == ip
  {
    hide Sound;
    if c.cause != EndSeenLatest {
      UnmarkedSame(c.transaction);
    }
  }

  lemma UnmarkedSame(tx: Transaction)
    requires Sound(tx)
    ensures Unmarked(tx) == tx
  {
    hide TimesSound, StreamSound, NumbersSound;
  }

  lemma {:induction false} RunIp(ip: string, created: nat, inputs: seq<Input>)
    ensures Run(Fresh(ip, created), inputs).state.registerIP == ip
  {
    hide Step;
    if inputs == [] {
    } else {
      RunIp(ip, created, Front(inputs));
      StepExtends(Run(Fresh(ip, created), Front(inputs)), Last(inputs));
    }
  }

  /** In every run, every transaction, active or closed, holds what the raw fields of
      its events say: the last metaData and header events, the listed events in
      order, and the whole NS92 stream with the content of every record. */
  lemma RecordsOfRun(ip: string, created: nat, inputs: seq<Input>, tx: Transaction)
    requires ValidRun(Fresh(ip, created), inputs) && RecordOf(Run(Fresh(ip, created), inputs), tx)
    ensures RecordIs(tx) && tx.registerIP == ip
  {
    RecordSound(ip, created, inputs, tx);
    hide Run, ValidRun, RecordOf, TimesSound, NumbersSound, StreamSound, RecordIs;
    ClosedFormIs(Unmarked(tx));
    RecordUnmarked(tx);
  }

  lemma RecordUnmarked(tx: Transaction)
    requires RecordIs(Unmarked(tx))
    ensures RecordIs(tx)
  {
    hide LastMetaIs, LastHeaderIs, StreamIs, TriadBy, FirstTriad, ListedAt;
    assert OfferedPos(Unmarked(tx)) == OfferedPos(tx);
  }

  /** In every run: the end-of-cart timer of a transaction runs if and only if its last
      event reports the end of the cart, from the second clock reading of that event;
      the last activity is the first reading. */
  lemma TimersOfRun(ip: string, created: nat, inputs: seq<Input>, tx: Transaction)
    requires ValidRun(Fresh(ip, created), inputs) && RecordOf(Run(Fresh(ip, created), inputs), tx)
    ensures tx.routed != [] && tx.lastActivity == Last(tx.routed).clock.now
    ensures tx.cartEnd == if EndsCart(Last(tx.routed).event) then Some(Last(tx.routed).clock.cartEnd) else None
  {
    RecordSound(ip, created, inputs, tx);
    Readings(Last(tx.routed).event);
    hide Run, ValidRun, RecordOf, NumbersSound, StreamSound, IsCartEnd, EndsCart, IsDemarcator, Demarcates,
         LastMeta, LastHeader, OtherEvents;
  }

  /** In every run a waiting group holds exactly its events, in order, all of them of
      its 30 seconds; they lack a metaData or a cart event; its last activity is the
      reading of the last. */
  lemma GroupsOfRun(ip: string, created: nat, inputs: seq<Input>, w: nat)
    requires ValidRun(Fresh(ip, created), inputs) && w in Run(Fresh(ip, created), inputs).state.groups
    ensures var g := Run(Fresh(ip, created), inputs).state.groups[w];
            g.routed != [] && |g.events| == |g.routed| && !CompletesGroup(g.routed) && g.registerIP == ip &&
            (forall i :: 0 <= i < |g.routed| ==> g.events[i] == g.routed[i].event) &&
            (forall a :: a in g.routed ==> w * 30_000_000_000 <= a.clock.now < (w + 1) * 30_000_000_000) &&
            g.lastActivity == Last(g.routed).clock.now
  {
    RunInv(ip, created, inputs);
    RunIp(ip, created, inputs);
    var g := Run(Fresh(ip, created), inputs).state.groups[w];
    hide Run, ValidRun, ActiveOk, ClosingsOk, StartsOk, Window, GroupComplete, CompletesGroup,
         TransactionSeqOf, IsDemarcator;
    assert GroupOk(g, w, ip) && !GroupComplete(g);
    EventsComplete(g);
    forall a | a in g.routed ensures w * 30_000_000_000 <= a.clock.now < (w + 1) * 30_000_000_000 {
      WindowIs(a.clock.now);
    }
  }

  // ----- which cameras -----

  ghost predicate FromInputs(inputs: seq<Input>, esns: seq<string>) {
    exists i :: 0 <= i < |inputs| && inputs[i].esns == esns
  }

  ghost predicate OffersFrom(inputs: seq<Input>, offers: seq<Offer>) {
    forall i :: 0 <= i < |offers| ==> FromInputs(inputs, offers[i].esns)
  }

  ghost predicate Fanned(t: Trace, inputs: seq<Input>) {
    (forall k :: k in t.state.active ==> OffersFrom(inputs, t.state.active[k].offers)) &&
    forall i :: 0 <= i < |t.closings| ==>
      FromInputs(inputs, t.closings[i].esns) && OffersFrom(inputs, t.closings[i].transaction.offers)
  }

  lemma FromMore(inputs: seq<Input>, esns: seq<string>)
    requires inputs != []
    ensures FromInputs(Front(inputs), esns) ==> FromInputs(inputs, esns)
    ensures FromInputs(inputs, Last(inputs).esns)
  {
    if i :| 0 <= i < |Front(inputs)| && Front(inputs)[i].esns == esns {
      assert inputs[i].esns == esns;
    }
    assert inputs[|inputs| - 1].esns == Last(inputs).esns;
  }

  lemma OffersFromMore(inputs: seq<Input>, before: seq<Offer>, after: seq<Offer>)
    requires inputs != [] && OffersFrom(Front(inputs), before) && OffersGrow(before, after, Last(inputs).esns)
    ensures OffersFrom(inputs, after)
  {
    hide FromInputs;
    forall i | 0 <= i < |after| ensures FromInputs(inputs, after[i].esns) {
      FromMore(inputs, after[i].esns);
      assert i < |before| ==> after[i] == before[i];
    }
  }

  lemma SentOffers(t: Trace, input: Input, latest: string, c: Closing, inputs: seq<Input>)
    requires Sent(t, input, latest, c) && Fanned(t, inputs)
    ensures c.esns == input.esns && OffersFrom(inputs, c.transaction.offers)
  {
    hide Over, CartOver, FromInputs, GroupSurvives, AnySurvives, CompletesGroup, Demarcates, Commands;
  }

  lemma StepFanned(t: Trace, inputs: seq<Input>)
    requires inputs != [] && Inv(t) && ValidChoice(t, Last(inputs)) && Fanned(t, Front(inputs))
    ensures Fanned(Step(t, Last(inputs)), inputs)
  {
    var input, u := Last(inputs), Step(t, Last(inputs));
    var latest := ClosingsEffect(t, input);
    ActiveFanned(t, inputs);
    hide Step, Inv, ValidChoice, Sent, OffersFrom, FromInputs;
    forall i | 0 <= i < |u.closings|
      ensures FromInputs(inputs, u.closings[i].esns) && OffersFrom(inputs, u.closings[i].transaction.offers)
    {
      var c := u.closings[i];
      if i < |t.closings| {
        assert c == t.closings[i];
      } else {
        SentOffers(t, input, latest, c, Front(inputs));
      }
      FromMore(inputs, c.esns);
      OffersSame(inputs, c.transaction.offers);
    }
  }

  lemma OffersSame(inputs: seq<Input>, offers: seq<Offer>)
    requires inputs != []
    ensures OffersFrom(Front(inputs), offers) ==> OffersFrom(inputs, offers)
  {
    if OffersFrom(Front(inputs), offers) {
      OffersFromMore(inputs, offers, offers);
    }
  }

  lemma ActiveFanned(t: Trace, inputs: seq<Input>)
    requires inputs != [] && Inv(t) && ValidChoice(t, Last(inputs)) && Fanned(t, Front(inputs))
    ensures forall k :: k in Step(t, Last(inputs)).state.active ==>
              OffersFrom(inputs, Step(t, Last(inputs)).state.active[k].offers)
  {
    var input := Last(inputs);
    hide Step, Inv, ValidChoice, OffersFrom, CarriesNumber, AnySurvives;
    if Commands(input.event, "StartTransaction") {
      StartEffect(t, input);
    } else if Commands(input.event, "EndTransaction") {
      EndEffect(t, input);
    } else {
      OrdinaryEffect(t, input);
      var u := Step(t, input);
      if n :| CarriesNumber(input.event, n) {
        TransactionFanned(t, inputs, u, n);
      } else if AnySurvives(t, input) {
        var k :| IsNewest(t, input, k) && ToTransaction(t, input, u, k);
        TransactionFanned(t, inputs, u, k);
      }
    }
  }

  lemma TransactionFanned(t: Trace, inputs: seq<Input>, u: Trace, k: string)
    requires inputs != [] && Fanned(t, Front(inputs)) && ToTransaction(t, Last(inputs), u, k)
    ensures forall j :: j in u.state.active ==> OffersFrom(inputs, u.state.active[j].offers)
  {
    var input := Last(inputs);
    forall j | j in u.state.active ensures OffersFrom(inputs, u.state.active[j].offers) {
      if j == k {
        OffersFromMore(inputs, if Survives(t, input, k) then t.state.active[k].offers else [],
                       u.state.active[k].offers);
      } else {
        OffersSame(inputs, t.state.active[j].offers);
      }
    }
  }

  /** In every run every NS92 and every NS91 goes to the cameras the register resolved
      to with one of its events. */
  lemma {:induction false} FannedOfRun(ip: string, created: nat, inputs: seq<Input>)
    requires ValidRun(Fresh(ip, created), inputs)
    ensures Fanned(Run(Fresh(ip, created), inputs), inputs)
  {
    hide Step, ValidChoice, Inv, OffersFrom, FromInputs;
    if inputs == [] {
    } else {
      FannedOfRun(ip, created, Front(inputs));
      RunInv(ip, created, Front(inputs));
      StepFanned(Run(Fresh(ip, created), Front(inputs)), inputs);
    }
  }

  /** In every run in which a register always resolves to a camera, that camera gets
      every NS92 body of every transaction, each once and in order. */
  lemma CameraOfRun(ip: string, created: nat, inputs: seq<Input>, tx: Transaction, esn: string)
    requires ValidRun(Fresh(ip, created), inputs) && RecordOf(Run(Fresh(ip, created), inputs), tx)
    requires forall i :: 0 <= i < |inputs| ==> NoDuplicates(inputs[i].esns) && esn in inputs[i].esns
    ensures PosOfEtags(ForEsn(AllEtags(tx), esn)) == OfferedPos(tx)
  {
    FannedOfRun(ip, created, inputs);
    assert OffersFrom(inputs, tx.offers);
    hide Run, ValidRun, RecordOf, Fanned, NoDuplicates;
    forall i | 0 <= i < |tx.offers| ensures NoDuplicates(tx.offers[i].esns) && esn in tx.offers[i].esns {
      assert FromInputs(inputs, tx.offers[i].esns);
    }
    hide OffersFrom, Ns92Etags;
    CameraStream(tx.registerIP, tx.transactionSeq, tx.offers, 1, esn);
    OfferPosIs(tx.offers);
    assert OfferedPos(tx) == OfferPos(tx.offers);
  }
}
