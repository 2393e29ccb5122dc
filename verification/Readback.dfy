/** What can be read back from an NS91 record. */
module Readback {
  import opened Payload
  import opened Register
  import opened Aggregation

  lemma SeparateCombine(values: seq<Json>)
    requires values != []
    ensures Separate(Combine(values)) == values
  {
    if |values| == 1 {
      assert values == [values[0]];
    }
  }

  /** The aggregate decodes: at every open key, exactly the seed's value and the
      values of the events come back, in arrival order. */
  lemma AggregateReadback(seed: Event, events: seq<Event>, key: string)
    requires !Reserved(key)
    ensures key in Aggregate(seed, events) <==> AllValues(seed, events, key) != []
    ensures key in Aggregate(seed, events) ==> Separate(Aggregate(seed, events)[key]) == AllValues(seed, events, key)
  {
    AggregateIsAggregate(seed, events);
    assert Lookup(Aggregate(seed, events), key) == Entry(seed, events, key);
    hide Aggregate;
    if AllValues(seed, events, key) != [] {
      SeparateCombine(AllValues(seed, events, key));
    }
  }

  /** Keys an event value can be read back at from any NS91. */
  predicate Open(key: string) {
    !Reserved(key) && key != "domain" && key != "register_ip" && key != "status"
  }

  lemma SeedHasNoOpenKey(tx: Transaction, key: string)
    requires Open(key)
    ensures key !in Seed(tx)
  {
  }

  /** At every open key the values of all merged events come back, no more and no fewer. */
  lemma Ns91Readback(tx: Transaction, requested: Option<Status>, key: string)
    requires Open(key)
    ensures key in Ns91Pos(tx, requested) <==> exists e :: e in tx.otherEvents && key in e
    ensures key in Ns91Pos(tx, requested) ==>
              Separate(Ns91Pos(tx, requested)[key]) == ValuesOf(tx.otherEvents, key)
  {
    SeedHasNoOpenKey(tx, key);
    AggregateReadback(Seed(tx), tx.otherEvents, key);
    ValuesOfPresent(tx.otherEvents, key);
    assert AllValues(Seed(tx), tx.otherEvents, key) == ValuesOf(tx.otherEvents, key);
    hide Aggregate, Seed, FinalStatus;
  }

  /** The status key: the status when there is one, else whatever events put there. */
  lemma Ns91StatusKey(tx: Transaction, requested: Option<Status>)
    ensures var status := FinalStatus(tx, requested);
            if status.Some? then
              "status" in Ns91Pos(tx, requested) && Ns91Pos(tx, requested)["status"] == Str(StatusName(status.value))
            else if exists e :: e in tx.otherEvents && "status" in e then
              "status" in Ns91Pos(tx, requested) &&
              Separate(Ns91Pos(tx, requested)["status"]) == ValuesOf(tx.otherEvents, "status")
            else "status" !in Ns91Pos(tx, requested)
  {
    assert "status" !in Seed(tx);
    assert !Reserved("status");
    AggregateReadback(Seed(tx), tx.otherEvents, "status");
    ValuesOfPresent(tx.otherEvents, "status");
    assert AllValues(Seed(tx), tx.otherEvents, "status") == ValuesOf(tx.otherEvents, "status");
    hide Aggregate, Seed, FinalStatus;
  }

  /** Records that look alike carried the same values. */
  lemma Ns91Injective(tx: Transaction, tx': Transaction, requested: Option<Status>, requested': Option<Status>,
                      key: string)
    requires Open(key) && Ns91Pos(tx, requested) == Ns91Pos(tx', requested')
    ensures ValuesOf(tx.otherEvents, key) == ValuesOf(tx'.otherEvents, key)
  {
    Ns91Readback(tx, requested, key);
    Ns91Readback(tx', requested', key);
    ValuesOfPresent(tx.otherEvents, key);
    ValuesOfPresent(tx'.otherEvents, key);
  }
}
