/** The sequence numbers of one transaction's records. */
module Numbering {
  import opened Collections
  import opened Payload
  import opened Register
  import opened Transactions
  import opened Aggregation
  import opened Invariants

  /** Every NS92 a transaction has offered, over all cameras, in queue order. */
  function AllEtags(tx: Transaction): seq<Etag> {
    Ns92Etags(tx.registerIP, tx.transactionSeq, tx.offers, 1)
  }

  /** What the numbers depend on. Unlike `Sound` it still holds of a record that
      EndTransaction has marked complete. */
  ghost predicate Numbered(tx: Transaction) {
    StreamSound(tx) && NumbersSound(tx) && tx.otherEvents == OtherEvents(tx.routed)
  }

  /** A transaction of the run, active or closed. */
  ghost predicate RecordOf(t: Trace, tx: Transaction) {
    (exists k :: k in t.state.active && t.state.active[k] == tx) ||
    (exists i :: 0 <= i < |t.closings| && t.closings[i].cause != UnknownFlush && t.closings[i].transaction == tx)
  }

  lemma ClosingNumbered(c: Closing, ip: string)
    requires ClosingOk(c, ip) && c.cause != UnknownFlush
    ensures Numbered(c.transaction)
  {
    hide GroupOk, TimesSound, Stream, OfferPos, Total;
    if c.cause == EndSeenLatest {
      assert Numbered(Unmarked(c.transaction));
    }
  }

  lemma ActiveNumbered(tx: Transaction, key: string, ip: string)
    requires TransactionOk(tx, key, ip)
    ensures Numbered(tx)
  {
    hide TimesSound, StreamSound, NumbersSound;
  }

  lemma RecordsNumbered(ip: string, created: nat, inputs: seq<Input>, tx: Transaction)
    requires ValidRun(Fresh(ip, created), inputs) && RecordOf(Run(Fresh(ip, created), inputs), tx)
    ensures Numbered(tx)
  {
    RunInv(ip, created, inputs);
    var t := Run(Fresh(ip, created), inputs);
    hide Run, ValidRun, Numbered, TransactionOk, ClosingOk, GroupsOk, StartsOk;
    if k :| k in t.state.active && t.state.active[k] == tx {
      ActiveNumbered(tx, k, t.state.registerIP);
    } else {
      var i :| 0 <= i < |t.closings| && t.closings[i].cause != UnknownFlush && t.closings[i].transaction == tx;
      ClosingNumbered(t.closings[i], t.state.registerIP);
    }
  }

  /** The k-th record offered carries number first + k, modulo 2^16. */
  lemma {:induction false} EtagNumbers(ip: string, txn: string, offers: seq<Offer>, first: nat)
    ensures |Ns92Etags(ip, txn, offers, first)| == Total(offers)
    ensures forall k :: 0 <= k < Total(offers) ==>
              Ns92Etags(ip, txn, offers, first)[k].seqNo == (first + k) % UINT16
  {
    if offers == [] {
    } else {
      EtagNumbers(ip, txn, Front(offers), first);
      var base := Total(Front(offers));
      forall k | base <= k < Total(offers)
        ensures Ns92Etags(ip, txn, offers, first)[k].seqNo == (first + k) % UINT16
      {
        ModAbsorb(first + base, k - base);
      }
    }
  }

  /** Across all cameras, the numbers run 1, 2, 3, ... until the 16-bit counter
      wraps: contiguous, hence distinct below the wrap. */
  lemma NumbersContiguous(tx: Transaction)
    requires Numbered(tx)
    ensures |AllEtags(tx)| == Total(tx.offers)
    ensures forall k :: 0 <= k < |AllEtags(tx)| ==> AllEtags(tx)[k].seqNo == (k + 1) % UINT16
    ensures tx.seqCounter == (|AllEtags(tx)| + 1) % UINT16
    ensures |AllEtags(tx)| < UINT16 ==>
              forall i, j :: 0 <= i < j < |AllEtags(tx)| ==> AllEtags(tx)[i].seqNo != AllEtags(tx)[j].seqNo
  {
    EtagNumbers(tx.registerIP, tx.transactionSeq, tx.offers, 1);
    hide StreamSound, Ns92Etags, Total;
    forall i, j | 0 <= i < j < |AllEtags(tx)| && |AllEtags(tx)| < UINT16
      ensures AllEtags(tx)[i].seqNo != AllEtags(tx)[j].seqNo
    {
      assert AllEtags(tx)[i].seqNo == i + 1;
    }
  }

  // ----- how long the stream is -----

  lemma {:induction false} PendingLength(routed: seq<Arrival>)
    ensures |PendingEvents(routed)| <= |OtherEvents(routed)|
  {
    if routed == [] {
    } else {
      PendingLength(Front(routed));
    }
  }

  lemma {:induction false} LaterLength(ip: string, routed: seq<Arrival>, from: nat)
    requires from <= |routed|
    ensures |LaterPos(ip, routed, from)| + |OtherEvents(routed[..from])| <= |OtherEvents(routed)|
  {
    hide EventPos, IsDemarcator;
    if from < |routed| {
      LaterLength(ip, Front(routed), from);
      assert Front(routed)[..from] == routed[..from];
    } else {
      assert routed[..from] == routed;
    }
  }

  lemma {:induction false} PosOfLength(ip: string, meta: Option<Event>, events: seq<Event>)
    ensures |PosOf(ip, meta, events)| == |events|
  {
    if events == [] {
    } else {
      PosOfLength(ip, meta, Front(events));
    }
  }

  lemma {:induction false} OfferPosLength(offers: seq<Offer>)
    ensures |OfferPos(offers)| == |offers|
  {
    if offers == [] {
    } else {
      OfferPosLength(Front(offers));
    }
  }

  /** At most one record per event in the list, and one for the start. */
  lemma StreamLength(tx: Transaction)
    requires Numbered(tx)
    ensures |tx.offers| <= |tx.otherEvents| + 1
    ensures !tx.hasStartTriad ==> tx.offers == []
  {
    hide NumbersSound, StartPos;
    var cmd := tx.cmd.Some?;
    OfferPosLength(tx.offers);
    if tx.hasStartTriad {
      TriadAtInRange(cmd, tx.routed);
      var k := TriadAt(cmd, tx.routed).value;
      var known := tx.routed[..k];
      PosOfLength(tx.registerIP, LastMeta(known), PendingEvents(known));
      PendingLength(known);
      LaterLength(tx.registerIP, tx.routed, k);
      hide TriadAt, LastMeta, LastHeader, PosOf, PendingEvents, LaterPos, OtherEvents, OfferPos;
    }
  }

  // ----- one camera -----

  function ForEsn(etags: seq<Etag>, esn: string): seq<Etag> {
    if etags == [] then [] else
      ForEsn(Front(etags), esn) + if Last(etags).esn == esn then [Last(etags)] else []
  }

  function PosOfEtags(etags: seq<Etag>): seq<Event> {
    seq(|etags|, i requires 0 <= i < |etags| => etags[i].pos)
  }

  lemma {:induction false} ForEsnAppend(a: seq<Etag>, b: seq<Etag>, esn: string)
    ensures ForEsn(a + b, esn) == ForEsn(a, esn) + ForEsn(b, esn)
  {
    if b == [] {
      assert a + b == a;
    } else {
      assert Front(a + b) == a + Front(b) && Last(a + b) == Last(b);
      ForEsnAppend(a, Front(b), esn);
    }
  }

  /** A list with no match contributes nothing, one with a single match that one. */
  lemma {:induction false} ForEsnOnce(etags: seq<Etag>, esn: string, at: nat)
    requires at < |etags| ==> etags[at].esn == esn
    requires forall i :: 0 <= i < |etags| && i != at ==> etags[i].esn != esn
    ensures ForEsn(etags, esn) == if at < |etags| then [etags[at]] else []
  {
    if etags == [] {
    } else {
      if at == |etags| - 1 {
        ForEsnOnce(Front(etags), esn, |etags|);
      } else {
        ForEsnOnce(Front(etags), esn, at);
      }
    }
  }

  lemma OfferForEsn(ip: string, txn: string, offer: Offer, first: nat, esn: string)
    requires NoDuplicates(offer.esns) && esn in offer.esns
    ensures PosOfEtags(ForEsn(OfferEtags(ip, txn, offer, first), esn)) == [offer.pos]
  {
    hide EtagIdOf;
    var etags := OfferEtags(ip, txn, offer, first);
    var at :| 0 <= at < |offer.esns| && offer.esns[at] == esn;
    assert forall i :: 0 <= i < |etags| ==> etags[i].esn == offer.esns[i] && etags[i].pos == offer.pos;
    hide OfferEtags;
    ForEsnOnce(etags, esn, at);
  }

  lemma PosOfEtagsAppend(a: seq<Etag>, b: seq<Etag>)
    ensures PosOfEtags(a + b) == PosOfEtags(a) + PosOfEtags(b)
  {
  }

  /** A camera in every fan-out receives every record of the stream exactly once, in order. */
  lemma {:induction false} CameraStream(ip: string, txn: string, offers: seq<Offer>, first: nat, esn: string)
    requires forall i :: 0 <= i < |offers| ==> NoDuplicates(offers[i].esns) && esn in offers[i].esns
    ensures PosOfEtags(ForEsn(Ns92Etags(ip, txn, offers, first), esn)) == OfferPos(offers)
  {
    hide OfferEtags, PosOfEtags;
    if offers == [] {
      PosOfNone();
    } else {
      var front, last := Front(offers), Last(offers);
      CameraStream(ip, txn, front, first, esn);
      var next := (first + Total(front)) % UINT16;
      var before, etags := Ns92Etags(ip, txn, front, first), OfferEtags(ip, txn, last, next);
      ForEsnAppend(before, etags, esn);
      OfferForEsn(ip, txn, last, next, esn);
      PosOfEtagsAppend(ForEsn(before, esn), ForEsn(etags, esn));
    }
  }

  lemma PosOfNone()
    ensures PosOfEtags([]) == []
  {
  }

  ghost predicate SingleCamera(tx: Transaction) {
    forall i :: 0 <= i < |tx.offers| ==> |tx.offers[i].esns| == 1
  }

  /** Numbered 1, 2, 3, ... and all below `limit`. */
  predicate CountUp(etags: seq<Etag>, limit: nat) {
    forall k :: 0 <= k < |etags| ==> etags[k].seqNo == k + 1 && k + 1 < limit
  }

  /** When a register resolves to a single camera throughout a transaction: its
      NS92 numbers are exactly 1..n with n at most one more than the number of
      events in the list, and the number of the closing NS91 exceeds them all. */
  lemma SingleCameraNumbers(c: Closing, esn: string)
    requires Numbered(c.transaction) && |c.transaction.otherEvents| + 4 < UINT16 && SingleCamera(c.transaction)
    ensures var etags := AllEtags(c.transaction);
            |etags| <= |c.transaction.otherEvents| + 1 &&
            CountUp(etags, Ns91Etag(c, esn).seqNo)
  {
    hide Numbered, AllEtags, Ns91Pos, FinalStatus, EtagIdOf;
    NumbersContiguous(c.transaction);
    StreamLength(c.transaction);
    TotalOfSingles(c.transaction.offers);
    assert |AllEtags(c.transaction)| + 1 < UINT16;
    assert Ns91Etag(c, esn).seqNo == |c.transaction.otherEvents| + 4;
  }

  lemma {:induction false} TotalOfSingles(offers: seq<Offer>)
    requires forall i :: 0 <= i < |offers| ==> |offers[i].esns| == 1
    ensures Total(offers) == |offers|
  {
    if offers == [] {
    } else {
      TotalOfSingles(Front(offers));
    }
  }

  // ----- every run -----

  /** In every run, for every transaction, active or closed: over all cameras its
      numbers run 1, 2, 3, ... modulo 2^16, and there is at most one event-level
      record per listed event and one for the start, none before the triad. */
  lemma NumbersOfRun(ip: string, created: nat, inputs: seq<Input>, tx: Transaction)
    requires ValidRun(Fresh(ip, created), inputs) && RecordOf(Run(Fresh(ip, created), inputs), tx)
    ensures forall k :: 0 <= k < |AllEtags(tx)| ==> AllEtags(tx)[k].seqNo == (k + 1) % UINT16
    ensures |AllEtags(tx)| < UINT16 ==>
              forall i, j :: 0 <= i < j < |AllEtags(tx)| ==> AllEtags(tx)[i].seqNo != AllEtags(tx)[j].seqNo
    ensures |AllEtags(tx)| == Total(tx.offers) && |tx.offers| <= |tx.otherEvents| + 1
    ensures !tx.hasStartTriad ==> AllEtags(tx) == []
  {
    RecordsNumbered(ip, created, inputs, tx);
    hide Run, ValidRun, Numbered, AllEtags, RecordOf;
    NumbersContiguous(tx);
    StreamLength(tx);
  }

  /** In every run, for every closed transaction whose records each went to one
      camera: the NS92 numbers are exactly 1..n with n at most one more than the
      number of listed events, all below the number of the closing NS91. */
  lemma ClosingNumbersOfRun(ip: string, created: nat, inputs: seq<Input>, i: nat, esn: string)
    requires ValidRun(Fresh(ip, created), inputs) && i < |Run(Fresh(ip, created), inputs).closings|
    ensures var c := Run(Fresh(ip, created), inputs).closings[i];
            var etags := AllEtags(c.transaction);
            c.cause != UnknownFlush && |c.transaction.otherEvents| + 4 < UINT16 && SingleCamera(c.transaction) ==>
              |etags| <= |c.transaction.otherEvents| + 1 &&
              CountUp(etags, Ns91Etag(c, esn).seqNo)
  {
    var c := Run(Fresh(ip, created), inputs).closings[i];
    if c.cause != UnknownFlush {
      assert RecordOf(Run(Fresh(ip, created), inputs), c.transaction);
      RecordsNumbered(ip, created, inputs, c.transaction);
      hide Run, ValidRun, Numbered, AllEtags, RecordOf, Ns91Etag, SingleCamera, CountUp;
      if |c.transaction.otherEvents| + 4 < UINT16 && SingleCamera(c.transaction) {
        SingleCameraNumbers(c, esn);
      }
    }
  }

  /** In every run, for every transaction, active or closed: a camera in every
      fan-out receives exactly the stream of the events routed to the transaction,
      in order. */
  lemma CameraStreamOfRun(ip: string, created: nat, inputs: seq<Input>, tx: Transaction, esn: string)
    requires ValidRun(Fresh(ip, created), inputs) && RecordOf(Run(Fresh(ip, created), inputs), tx)
    requires forall i :: 0 <= i < |tx.offers| ==> NoDuplicates(tx.offers[i].esns) && esn in tx.offers[i].esns
    ensures PosOfEtags(ForEsn(AllEtags(tx), esn)) == Stream(tx.registerIP, tx.cmd.Some?, tx.routed)
  {
    RecordsNumbered(ip, created, inputs, tx);
    hide Run, ValidRun, RecordOf, Stream, OfferPos, Ns92Etags, TriadAt, PendingEvents;
    CameraStream(tx.registerIP, tx.transactionSeq, tx.offers, 1, esn);
  }
}
