/** The status every NS91 of every run carries. */
module Statuses {
  import opened Collections
  import opened Payload
  import opened Register
  import opened Transactions
  import opened Aggregation
  import opened Invariants

  /** The status as a function of why the record was sent. */
  ghost function Classified(c: Closing): Option<Status> {
    match c.cause
    case UnknownFlush => Some(Unknown)
    case CartEndSilence => None
    case EndSeenLatest =>
      if c.transaction.hasStartTriad && Significant(c.transaction) then None else Some(Abandoned)
    case _ => Some(Abandoned)
  }

  lemma {:induction false} OtherEventsHold(routed: seq<Arrival>, i: nat)
    requires i < |routed| && IsOther(routed[i].event)
    ensures routed[i].event in OtherEvents(routed)
  {
    if i < |routed| - 1 {
      OtherEventsHold(Front(routed), i);
    }
  }

  /** A running end-of-cart timer means the cart event is in the record. */
  lemma CartTimerIsMeaningful(tx: Transaction)
    requires FieldsSound(tx) && tx.cartEnd.Some?
    ensures Significant(tx)
  {
    OtherEventsHold(tx.routed, |tx.routed| - 1);
    assert Meaningful(Last(tx.routed).event);
  }

  lemma ClosingStatus(c: Closing, ip: string)
    requires ClosingOk(c, ip)
    ensures FinalStatus(c.transaction, c.requested) == Classified(c)
  {
    hide StreamSound, TimesSound, NumbersSound, GroupOk;
    if c.cause == EndSeenLatest && c.transaction.cartEnd.Some? {
      CartTimerIsMeaningful(Unmarked(c.transaction));
      assert Significant(Unmarked(c.transaction)) ==> Significant(c.transaction);
    }
  }

  /** In every run: the classification of every NS91, and when there is no status. */
  lemma StatusesOfRun(ip: string, created: nat, inputs: seq<Input>, i: nat, esn: string)
    requires ValidRun(Fresh(ip, created), inputs) && i < |Run(Fresh(ip, created), inputs).closings|
    ensures var c := Run(Fresh(ip, created), inputs).closings[i];
            Ns91Etag(c, esn).status == Classified(c) &&
            (Ns91Etag(c, esn).status == None <==>
               c.cause == CartEndSilence ||
               (c.cause == EndSeenLatest && c.transaction.hasStartTriad && Significant(c.transaction)))
  {
    RunInv(ip, created, inputs);
    var t := Run(Fresh(ip, created), inputs);
    hide ClosingOk, Run, Classified, FinalStatus;

    ClosingStatus(t.closings[i], t.state.registerIP);
    ClassifiedNone(t.closings[i]);
  }

  lemma ClassifiedNone(c: Closing)
    ensures Classified(c) == None <==>
            c.cause == CartEndSilence ||
            (c.cause == EndSeenLatest && c.transaction.hasStartTriad && Significant(c.transaction))
  {
  }
}
