/** NS91 aggregation: what one completed transaction or unknown group is sent as. */
module Aggregation {
  import opened Collections
  import opened Payload
  import opened Register

  /** Keys the event merge never touches: they come from the transaction itself. */
  predicate Reserved(key: string) {
    key == "metaData" || key == "transactionHeader" || key == "CMD"
  }

  /** All values a key has in a list of events, in order. */
  function ValuesOf(events: seq<Event>, key: string): seq<Json> {
    if events == [] then [] else
      ValuesOf(Front(events), key) + if key in Last(events) then [Last(events)[key]] else []
  }

  /** How a non-empty value list is represented in the aggregate. */
  function Combine(values: seq<Json>): Json
    requires values != []
  {
    if |values| == 1 && !values[0].Arr? then values[0] else Arr(values)
  }

  /** Reads the value list back from its representation. */
  function Separate(combined: Json): seq<Json> {
    if combined.Arr? then combined.items else [combined]
  }

  /** The fields the aggregate starts from. */
  function Seed(tx: Transaction): Event {
    BasePos(tx.registerIP)
    + (if tx.endCmd != "" then map["CMD" := Str(tx.endCmd)] else map[])
    + Field(tx.metaData, "metaData") + Field(tx.transactionHeader, "transactionHeader")
  }

  function ContributedKeys(events: seq<Event>): set<string> {
    set e, key | e in events && key in e && !Reserved(key) :: key
  }

  function AllValues(seed: Event, events: seq<Event>, key: string): seq<Json> {
    (if key in seed then [seed[key]] else []) + ValuesOf(events, key)
  }

  /** What the aggregate holds at a key: the seed's value at a reserved key,
      elsewhere the representation of all values, seed first. */
  function Entry(seed: Event, events: seq<Event>, key: string): Option<Json> {
    if Reserved(key) then
      if key in seed then Some(seed[key]) else None
    else if AllValues(seed, events, key) == [] then None
    else Some(Combine(AllValues(seed, events, key)))
  }

  /** The closed form of the merge. */
  ghost function Aggregate(seed: Event, events: seq<Event>): Event {
    map key | key in seed.Keys + ContributedKeys(events) && Entry(seed, events, key).Some? ::
      Entry(seed, events, key).value
  }

  /** A seed the merge may extend: its open fields are not arrays. */
  ghost predicate GoodSeed(seed: Event) {
    forall key :: key in seed && !Reserved(key) ==> !seed[key].Arr?
  }

  lemma {:induction false} ValuesOfPresent(events: seq<Event>, key: string)
    ensures ValuesOf(events, key) != [] <==> exists e :: e in events && key in e
  {
    if events == [] {
    } else {
      ValuesOfPresent(Front(events), key);
      assert forall e :: e in events <==> e in Front(events) || e == Last(events);
    }
  }

  function Lookup(pos: Event, key: string): Option<Json> {
    if key in pos then Some(pos[key]) else None
  }

  /** `pos` holds exactly the entries of the closed form. */
  ghost predicate IsAggregate(pos: Event, seed: Event, events: seq<Event>) {
    forall key :: Lookup(pos, key) == Entry(seed, events, key)
  }

  lemma AggregateIsAggregate(seed: Event, events: seq<Event>)
    ensures IsAggregate(Aggregate(seed, events), seed, events)
  {
    forall key ensures Lookup(Aggregate(seed, events), key) == Entry(seed, events, key) {
      ValuesOfPresent(events, key);
    }
  }

  lemma AggregateUnique(p: Event, q: Event, seed: Event, events: seq<Event>)
    requires IsAggregate(p, seed, events) && IsAggregate(q, seed, events)
    ensures p == q
  {
    forall key ensures key in p <==> key in q
               ensures key in p && key in q ==> p[key] == q[key] {
      assert Lookup(p, key) == Lookup(q, key);
    }
  }

  /** One step of the merge: the value is added to what the aggregate already holds. */
  function Merge(pos: Event, key: string, value: Json): Event {
    if key in pos then
      pos[key := if pos[key].Arr? then Arr(pos[key].items + [value]) else Arr([pos[key], value])]
    else
      pos[key := if value.Arr? then Arr([value]) else value]
  }

  lemma ValuesOfSnoc(events: seq<Event>, e: Event, key: string)
    ensures ValuesOf(events + [e], key) == ValuesOf(events, key) + if key in e then [e[key]] else []
  {
    assert Front(events + [e]) == events && Last(events + [e]) == e;
  }

  lemma EntryExtends(seed: Event, events: seq<Event>, part: Event, key: string, value: Json, k: string)
    requires key !in part
    ensures Entry(seed, events + [part[key := value]], k) ==
            if k == key && !Reserved(k) then Some(Combine(AllValues(seed, events + [part], k) + [value]))
            else Entry(seed, events + [part], k)
  {
    ValuesOfSnoc(events, part, k);
    ValuesOfSnoc(events, part[key := value], k);
    if k == key {
      assert AllValues(seed, events + [part[key := value]], k) == AllValues(seed, events + [part], k) + [value];
    }
  }

  lemma CombineGrows(values: seq<Json>, value: Json)
    requires values != []
    ensures Combine(values + [value]) ==
      if Combine(values).Arr? then Arr(Combine(values).items + [value]) else Arr([Combine(values), value])
  {
    if |values| == 1 && !values[0].Arr? {
      assert values + [value] == [values[0], value];
    }
  }

  /** Merging one more key of the last event extends the closed form by that key. */
  lemma MergeExtends(pos: Event, seed: Event, events: seq<Event>, part: Event, key: string, value: Json)
    requires key !in part
    requires IsAggregate(pos, seed, events + [part])
    ensures IsAggregate(if Reserved(key) then pos else Merge(pos, key, value), seed, events + [part[key := value]])
  {
    var next := if Reserved(key) then pos else Merge(pos, key, value);
    forall k ensures Lookup(next, k) == Entry(seed, events + [part[key := value]], k) {
      EntryExtends(seed, events, part, key, value, k);
      assert Lookup(pos, k) == Entry(seed, events + [part], k);
      if k == key && !Reserved(key) {
        var values := AllValues(seed, events + [part], key);
        if values == [] {
          assert values + [value] == [value];
        } else {
          CombineGrows(values, value);
        }
      }
    }
  }

  // ----- the whole NS91 record -----

  predicate Meaningful(e: Event) {
    "cartChangeTrail" in e || "paymentSummary" in e || "transactionFooter" in e
  }

  ghost predicate Significant(tx: Transaction) {
    exists e :: e in tx.otherEvents && Meaningful(e)
  }

  /** The status an NS91 carries, given the status its sender asked for. */
  ghost function FinalStatus(tx: Transaction, requested: Option<Status>): Option<Status> {
    if requested.None? && tx.cartEnd.None? && !Significant(tx) then Some(Abandoned) else requested
  }

  function StatusName(status: Status): string {
    match status case Unknown => "UNKNOWN" case Abandoned => "ABANDONED"
  }

  function StatusField(status: Option<Status>): Event {
    if status.Some? then map["status" := Str(StatusName(status.value))] else map[]
  }

  ghost function Ns91Pos(tx: Transaction, requested: Option<Status>): Event {
    Aggregate(Seed(tx), tx.otherEvents) + StatusField(FinalStatus(tx, requested))
  }

  ghost function Ns91Etag(c: Closing, esn: string): Etag {
    var tx := c.transaction;
    Etag(EtagIdOf(tx.registerIP, if tx.metaData.Some? then tx.metaData.value else map[]),
         tx.registerIP, tx.transactionSeq, 91, FinalStatus(tx, c.requested), esn,
         (|tx.otherEvents| + 4) % UINT16, Ns91Pos(tx, c.requested))
  }

  /** One closing is offered once to every camera of its fan-out. */
  ghost function ClosingEtags(c: Closing): seq<Etag> {
    seq(|c.esns|, i requires 0 <= i < |c.esns| => Ns91Etag(c, c.esns[i]))
  }

  ghost function Ns91Etags(closings: seq<Closing>): seq<Etag> {
    if closings == [] then [] else Ns91Etags(Front(closings)) + ClosingEtags(Last(closings))
  }

  /** The queue grew by exactly the ETags of the new closings. */
  ghost predicate Offered91(q0: seq<Etag>, c0: seq<Closing>, q1: seq<Etag>, c1: seq<Closing>) {
    c0 <= c1 && q1 == q0 + Ns91Etags(c1[|c0|..])
  }

  lemma Offered91None(q: seq<Etag>, c: seq<Closing>)
    ensures Offered91(q, c, q, c)
  {
  }

  lemma Offered91Snoc(q0: seq<Etag>, c0: seq<Closing>, q1: seq<Etag>, c1: seq<Closing>, c: Closing)
    requires Offered91(q0, c0, q1, c1)
    ensures Offered91(q0, c0, q1 + ClosingEtags(c), c1 + [c])
  {
    hide ClosingEtags;
    var more := (c1 + [c])[|c0|..];
    assert Front(more) == c1[|c0|..] && Last(more) == c;
  }

  lemma {:induction false} Ns91EtagsAppend(a: seq<Closing>, b: seq<Closing>)
    ensures Ns91Etags(a + b) == Ns91Etags(a) + Ns91Etags(b)
  {
    hide ClosingEtags;
    if b == [] {
      assert a + b == a;
    } else {
      assert Front(a + b) == a + Front(b) && Last(a + b) == Last(b);
      Ns91EtagsAppend(a, Front(b));
      var x, y, z := Ns91Etags(a), Ns91Etags(Front(b)), ClosingEtags(Last(b));
      assert x + y + z == x + (y + z);
    }
  }

  lemma Offered91Transitive(q0: seq<Etag>, c0: seq<Closing>, q1: seq<Etag>, c1: seq<Closing>,
                            q2: seq<Etag>, c2: seq<Closing>)
    requires Offered91(q0, c0, q1, c1) && Offered91(q1, c1, q2, c2)
    ensures Offered91(q0, c0, q2, c2)
  {
    hide Ns91Etags;
    assert c2[|c0|..] == c1[|c0|..] + c2[|c1|..];
    Ns91EtagsAppend(c1[|c0|..], c2[|c1|..]);
  }

  lemma SeedIsGood(tx: Transaction)
    ensures GoodSeed(Seed(tx))
  {
  }

  lemma SeedAggregatesNothing(seed: Event)
    requires GoodSeed(seed)
    ensures IsAggregate(seed, seed, [])
  {
    forall key ensures Lookup(seed, key) == Entry(seed, [], key) {
      if key in seed && !Reserved(key) {
        assert AllValues(seed, [], key) == [seed[key]];
      }
    }
  }

  /** The merge loops of sendToNS91WithESN, over the events in order and over
      the keys of each event in any order. */
  method AggregateEvents(seed: Event, events: seq<Event>) returns (pos: Event)
    requires GoodSeed(seed)
    ensures pos == Aggregate(seed, events)
  {
    pos := seed;
    SeedAggregatesNothing(seed);
    for i := 0 to |events|
      invariant IsAggregate(pos, seed, events[..i])
    {
      pos := AggregateEvent(pos, seed, events[..i], events[i]);
      assert events[..i + 1] == events[..i] + [events[i]];
    }
    assert events[..|events|] == events;
    AggregateIsAggregate(seed, events);
    AggregateUnique(pos, Aggregate(seed, events), seed, events);
  }

  lemma EmptyEventAddsNothing(pos: Event, seed: Event, events: seq<Event>)
    requires IsAggregate(pos, seed, events)
    ensures IsAggregate(pos, seed, events + [map[]])
  {
    forall key ensures Lookup(pos, key) == Entry(seed, events + [map[]], key) {
      ValuesOfSnoc(events, map[], key);
      assert Lookup(pos, key) == Entry(seed, events, key);
      assert AllValues(seed, events + [map[]], key) == AllValues(seed, events, key);
    }
  }

  method AggregateEvent(start: Event, ghost seed: Event, ghost events: seq<Event>, event: Event) returns (pos: Event)
    requires IsAggregate(start, seed, events)
    ensures IsAggregate(pos, seed, events + [event])
  {
    pos := start;
    EmptyEventAddsNothing(pos, seed, events);
    ghost var done: Event := map[];
    var remaining := event.Keys;
    while remaining != {}
      invariant remaining <= event.Keys
      invariant done == map key | key in event && key !in remaining :: event[key]
      invariant IsAggregate(pos, seed, events + [done])
      decreases remaining
    {
      var key :| key in remaining;
      var value := event[key];
      MergeExtends(pos, seed, events, done, key, value);
      if key != "metaData" && key != "transactionHeader" && key != "CMD" {
        if key in pos {
          if pos[key].Arr? {
            pos := pos[key := Arr(pos[key].items + [value])];
          } else {
            pos := pos[key := Arr([pos[key], value])];
          }
        } else {
          if value.Arr? {
            pos := pos[key := Arr([value])];
          } else {
            pos := pos[key := value];
          }
        }
      }
      done := done[key := value];
      remaining := remaining - {key};
    }
    assert done == event;
  }

  method HasSignificantTransactionContent(events: seq<Event>) returns (significant: bool)
    ensures significant <==> exists e :: e in events && Meaningful(e)
  {
    if |events| == 0 {
      return false;
    }
    var meaningfulEvents := 0;
    for i := 0 to |events|
      invariant meaningfulEvents >= 0
      invariant meaningfulEvents > 0 <==> exists j :: 0 <= j < i && Meaningful(events[j])
    {
      var event := events[i];
      if "cartChangeTrail" in event {
        meaningfulEvents := meaningfulEvents + 1;
      } else if "paymentSummary" in event {
        meaningfulEvents := meaningfulEvents + 1;
      } else if "transactionFooter" in event {
        meaningfulEvents := meaningfulEvents + 1;
      }
      assert meaningfulEvents > 0 && !(exists j :: 0 <= j < i && Meaningful(events[j])) ==> Meaningful(events[i]);
    }
    significant := meaningfulEvents > 0;
  }
}
