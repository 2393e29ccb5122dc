/** The per-camera queues of the store: one ordered map from text keys to encoded
    items, its operations, and what they do to the history of items. */
module AnntStore {
  import opened Collections
  import opened Payload
  import opened TextOrder
  import opened Keys

  const ITEM_TTL := 72 * 3600 * 1_000_000_000  // nanoseconds
  const ESN_SCAN_LIMIT := 10

  datatype ANNTItem = ANNTItem(
    id: string, registerIp: string, transactionSeq: string, anntData: Event,
    ns: int, priority: int, createdAt: int, esn: string)

  /** The bytes under a key: an item, or something that is not one. */
  datatype Data = Encoded(item: ANNTItem) | Undecodable

  type Database = map<string, Data>

  function ItemKey(item: ANNTItem): string {
    PendingKey(item.esn, item.createdAt, item.id)
  }

  function Prefixed(keys: set<string>, prefix: string): set<string> {
    set k | k in keys && HasPrefix(k, prefix)
  }

  predicate Decodable(db: Database, key: string) {
    key in db && db[key].Encoded?
  }

  /** A scan in key order that skips what it cannot decode, up to a limit. */
  function Collect(db: Database, keys: set<string>, limit: int): seq<string>
    decreases keys
  {
    if keys == {} || limit <= 0 then [] else
      var k := Min(keys);
      if Decodable(db, k) then [k] + Collect(db, keys - {k}, limit - 1) else Collect(db, keys - {k}, limit)
  }

  function Payloads(db: Database, keys: seq<string>): seq<Event>
    requires forall i :: 0 <= i < |keys| ==> Decodable(db, keys[i])
  {
    seq(|keys|, i requires 0 <= i < |keys| && Decodable(db, keys[i]) => db[keys[i]].item.anntData)
  }

  function Expired(db: Database, now: int): set<string> {
    set k | k in db && HasPrefix(k, PENDING) && db[k].Encoded? && now - db[k].item.createdAt > ITEM_TTL
  }

  /** The cameras named by keys in key order, at most ten. */
  function EsnScan(keys: set<string>, esns: seq<string>): seq<string>
    decreases keys
  {
    if keys == {} || |esns| >= ESN_SCAN_LIMIT then esns else
      var parts := Split(Min(keys));
      EsnScan(keys - {Min(keys)}, if |parts| >= 2 && parts[1] !in esns then esns + [parts[1]] else esns)
  }

  // ----- histories -----

  datatype Entry = Entry(key: string, item: ANNTItem)

  datatype Delivery = Delivery(camera: string, entry: Entry)

  datatype Op =
    | Store(item: ANNTItem)
    | Fetch(camera: string, limit: int)
    | Peek(camera: string, limit: int)
    | CleanUp(now: int)
    | Drain

  /** The database and where every item it once held has gone. */
  datatype History = History(
    db: Database, stored: seq<ANNTItem>, deliveries: seq<Delivery>,
    expired: multiset<Entry>, drained: multiset<Entry>, overwritten: multiset<Entry>)

  function Entries(db: Database, keys: set<string>): multiset<Entry> {
    multiset(set k | k in keys && k in db && db[k].Encoded? :: Entry(k, db[k].item))
  }

  function Pending(db: Database): multiset<Entry> {
    Entries(db, db.Keys)
  }

  function Delivered(db: Database, camera: string, keys: seq<string>): seq<Delivery>
    requires forall i :: 0 <= i < |keys| ==> Decodable(db, keys[i])
  {
    seq(|keys|, i requires 0 <= i < |keys| && Decodable(db, keys[i]) =>
      Delivery(camera, Entry(keys[i], db[keys[i]].item)))
  }

  function Fetched(db: Database, camera: string, limit: int): (keys: seq<string>)
    ensures forall k :: k in keys ==> Decodable(db, k)
  {
    CollectOldest(db, Prefixed(db.Keys, CameraPrefix(camera)), limit);
    Collect(db, Prefixed(db.Keys, CameraPrefix(camera)), limit)
  }

  function Apply(h: History, op: Op): History {
    match op
    case Store(item) =>
      h.(db := h.db[ItemKey(item) := Encoded(item)],
         stored := h.stored + [item],
         overwritten := h.overwritten + Entries(h.db, {ItemKey(item)}))
    case Fetch(camera, limit) =>
      var keys := Fetched(h.db, camera, limit);
      h.(db := h.db - Elements(keys), deliveries := h.deliveries + Delivered(h.db, camera, keys))
    case Peek(_, _) => h
    case CleanUp(now) =>
      var gone := Expired(h.db, now);
      h.(db := h.db - gone, expired := h.expired + Entries(h.db, gone))
    case Drain =>
      var gone := Prefixed(h.db.Keys, PENDING);
      h.(db := h.db - gone, drained := h.drained + Entries(h.db, gone))
  }

  function Run(initial: Database, ops: seq<Op>): History {
    if ops == [] then History(initial, [], [], multiset{}, multiset{}, multiset{})
    else Apply(Run(initial, ops[..|ops| - 1]), ops[|ops| - 1])
  }

  // ----- what a scan returns -----

  predicate Ascending(keys: seq<string>) {
    forall i, j :: 0 <= i < j < |keys| ==> Less(keys[i], keys[j])
  }

  function DecodableOf(db: Database, keys: set<string>): set<string> {
    set k | k in keys && Decodable(db, k)
  }

  /** The first decodable keys in key order: ascending, as many as the limit
      allows, and before everything decodable that is left. */
  ghost predicate Oldest(db: Database, keys: set<string>, limit: int, collected: seq<string>) {
    Ascending(collected) &&
    (forall k :: k in collected ==> k in keys && Decodable(db, k)) &&
    (forall k, j :: k in collected && j in DecodableOf(db, keys) && j !in collected ==> Less(k, j)) &&
    |collected| == if limit <= 0 then 0 else if limit <= |DecodableOf(db, keys)| then limit else |DecodableOf(db, keys)|
  }

  lemma {:induction false} CollectOldest(db: Database, keys: set<string>, limit: int)
    ensures Oldest(db, keys, limit, Collect(db, keys, limit))
    decreases keys
  {
    if keys != {} && limit > 0 {
      var k := Min(keys);
      var others := keys - {k};
      hide Less;
      forall j | j in others ensures Less(k, j) {
        assert AtMost(k, j);
      }
      if Decodable(db, k) {
        CollectOldest(db, others, limit - 1);
        assert DecodableOf(db, keys) == DecodableOf(db, others) + {k};
        PrependOldest(db, keys, k, limit, Collect(db, others, limit - 1));
      } else {
        CollectOldest(db, others, limit);
        assert DecodableOf(db, keys) == DecodableOf(db, others);
      }
    }
  }

  lemma PrependOldest(db: Database, keys: set<string>, k: string, limit: int, rest: seq<string>)
    requires k in keys && Decodable(db, k) && limit > 0
    requires forall j :: j in keys && j != k ==> Less(k, j)
    requires Oldest(db, keys - {k}, limit - 1, rest)
    ensures Oldest(db, keys, limit, [k] + rest)
  {
    hide Less, Decodable;
    var all := [k] + rest;
    DecodableOfAll(db, keys, k);
    hide DecodableOf;
    AscendingPrepend(k, rest);
    hide Ascending;
    assert forall y :: y in all <==> y == k || y in rest;
    forall x, j | x in all && j in DecodableOf(db, keys) && j !in all ensures Less(x, j) {
      assert j in DecodableOf(db, keys - {k});
    }
  }

  lemma AscendingPrepend(k: string, rest: seq<string>)
    requires Ascending(rest) && forall j :: j in rest ==> Less(k, j)
    ensures Ascending([k] + rest)
  {
    hide Less;
    var all := [k] + rest;
    forall i, j | 0 <= i < j < |all| ensures Less(all[i], all[j]) {
      assert all[j] == rest[j - 1] && rest[j - 1] in rest;
    }
  }

  lemma DecodableOfAll(db: Database, keys: set<string>, k: string)
    requires k in keys && Decodable(db, k)
    ensures DecodableOf(db, keys) == DecodableOf(db, keys - {k}) + {k}
    ensures k !in DecodableOf(db, keys - {k}) && DecodableOf(db, keys) <= keys
    ensures |DecodableOf(db, keys)| == |DecodableOf(db, keys - {k})| + 1
  {
    hide Decodable;
    assert DecodableOf(db, keys) == DecodableOf(db, keys - {k}) + {k};
  }

  // ----- what a caller gets -----

  /** The keys with the prefix that hold an item. */
  function Waiting(db: Database, prefix: string): set<string> {
    set k | k in db && |prefix| <= |k| && k[..|prefix|] == prefix && db[k].Encoded?
  }

  /** The list holds, in key order, the data under the first waiting keys, as many as
      the limit allows. */
  ghost predicate Served(db: Database, prefix: string, limit: int, keys: seq<string>, structures: seq<Event>) {
    Ascending(keys) &&
    (forall k, j :: k in keys && j in Waiting(db, prefix) && j !in keys ==> Less(k, j)) &&
    |keys| == (if limit <= 0 then 0 else if limit <= |Waiting(db, prefix)| then limit else |Waiting(db, prefix)|) &&
    |structures| == |keys| &&
    forall i :: 0 <= i < |keys| ==> keys[i] in Waiting(db, prefix) && structures[i] == db[keys[i]].item.anntData
  }

  lemma PayloadsServed(db: Database, prefix: string, limit: int, keys: seq<string>)
    requires forall i :: 0 <= i < |keys| ==> Decodable(db, keys[i])
    requires Oldest(db, Prefixed(db.Keys, prefix), limit, keys)
    ensures Served(db, prefix, limit, keys, Payloads(db, keys))
  {
    assert DecodableOf(db, Prefixed(db.Keys, prefix)) == Waiting(db, prefix);
    assert forall i :: 0 <= i < |keys| ==> keys[i] in keys;
    hide Ascending, Less;
  }

  /** The call delivered exactly what it returned, in this order, to this camera. */
  ghost predicate Returned(before: History, after: History, camera: string, structures: seq<Event>) {
    before.deliveries <= after.deliveries &&
    var news := after.deliveries[|before.deliveries|..];
    |news| == |structures| &&
    forall i :: 0 <= i < |news| ==> news[i].camera == camera && news[i].entry.item.anntData == structures[i]
  }

  /** The item is in the store, under a key with the prefix, and older than 72 hours. */
  predicate Outlived(db: Database, k: string, now: int) {
    k in db && |k| >= 8 && k[..8] == "pending_" && db[k].Encoded? && now - db[k].item.createdAt > 259_200_000_000_000
  }

  lemma OutlivedIsExpired(db: Database, now: int)
    ensures forall k :: k in Expired(db, now) <==> Outlived(db, k, now)
  {
  }

  /** A limit of all keys is a limit of all items. */
  lemma ServedAll(db: Database, keys: seq<string>, structures: seq<Event>)
    requires Served(db, PENDING, |Prefixed(db.Keys, PENDING)|, keys, structures)
    ensures Served(db, "pending_", |Waiting(db, "pending_")|, keys, structures)
  {
    SubsetCount(Waiting(db, PENDING), Prefixed(db.Keys, PENDING));
    hide Ascending, Less;
  }

  lemma MinOfPrefixed(ahead: set<string>, prefix: string)
    requires ahead != {} && forall k :: k in ahead ==> AtMost(prefix, k)
    ensures HasPrefix(Min(ahead), prefix) ==>
              Prefixed(ahead, prefix) != {} && Min(Prefixed(ahead, prefix)) == Min(ahead)
    ensures !HasPrefix(Min(ahead), prefix) ==> Prefixed(ahead, prefix) == {}
  {
    hide Less;
    var k := Min(ahead);
    if HasPrefix(k, prefix) {
      assert k in Prefixed(ahead, prefix);
      LessTotal(k, Min(Prefixed(ahead, prefix)));
    } else {
      PrefixInterval(prefix, k);
    }
  }

  // ----- the store -----

  class ANNTStore {
    var db: Database
    ghost var history: History

    constructor (db: Database)
      ensures Valid() && history == Run(db, [])
    {
      this.db := db;
      history := Run(db, []);
    }

    ghost predicate Valid()
      reads this
    {
      history.db == db
    }

    method StoreANNT(item: ANNTItem)
      requires Valid()
      modifies this
      ensures Valid() && history == Apply(old(history), Store(item))
      ensures db == old(db)["pending_" + item.esn + "_" + Decimal(item.createdAt) + "_" + item.id := Encoded(item)]
    {
      history := Apply(history, Store(item));
      var key := "pending_" + item.esn + "_" + Decimal(item.createdAt) + "_" + item.id;
      db := db[key := Encoded(item)];
    }

    /** The iteration all reads share: seek to the prefix, follow the key order
        while the prefix holds and the limit allows, skip undecodable data. */
    method Scan(prefix: string, limit: int) returns (structures: seq<Event>, keys: seq<string>)
      ensures keys == Collect(db, Prefixed(db.Keys, prefix), limit)
      ensures forall k :: k in keys ==> Decodable(db, k)
      ensures structures == Payloads(db, keys)
      ensures Served(db, prefix, limit, keys, structures)
    {
      hide Less, HasPrefix, Served;
      var ahead := set k | k in db && AtMost(prefix, k);
      structures, keys := [], [];
      assert Prefixed(ahead, prefix) == Prefixed(db.Keys, prefix) by {
        forall k | k in db && HasPrefix(k, prefix) ensures AtMost(prefix, k) {
          PrefixInterval(prefix, k);
        }
      }
      while ahead != {} && HasPrefix(Min(ahead), prefix) && |structures| < limit
        invariant ahead <= db.Keys && forall k :: k in ahead ==> AtMost(prefix, k)
        invariant forall k :: k in keys ==> Decodable(db, k)
        invariant structures == Payloads(db, keys)
        invariant keys + Collect(db, Prefixed(ahead, prefix), limit - |keys|) ==
                  Collect(db, Prefixed(db.Keys, prefix), limit)
        decreases ahead
      {
        var key := Min(ahead);
        MinOfPrefixed(ahead, prefix);
        assert Prefixed(ahead, prefix) - {key} == Prefixed(ahead - {key}, prefix);
        if db[key].Encoded? {
          structures := structures + [db[key].item.anntData];
          keys := keys + [key];
        }
        ahead := ahead - {key};
      }
      if ahead != {} {
        MinOfPrefixed(ahead, prefix);
      }
      assert keys == Collect(db, Prefixed(db.Keys, prefix), limit);
      CollectOldest(db, Prefixed(db.Keys, prefix), limit);
      hide Collect, Prefixed, Payloads, Oldest;
      PayloadsServed(db, prefix, limit, keys);
    }

    method GetANNTStructuresForCamera(camera: string, limit: int) returns (structures: seq<Event>)
      requires Valid()
      modifies this
      ensures Valid() && history == Apply(old(history), Fetch(camera, limit))
      ensures structures == Payloads(old(db), Fetched(old(db), camera, limit))
      ensures exists keys :: Served(old(db), "pending_" + camera + "_", limit, keys, structures) &&
                             db == old(db) - Elements(keys)
      ensures Returned(old(history), history, camera, structures)
    {
      hide Collect, Prefixed, Served;
      var keysToDelete;
      structures, keysToDelete := Scan(CameraPrefix(camera), limit);
      history := Apply(history, Fetch(camera, limit));
      DeleteAll(keysToDelete);
    }

    method DeleteAll(keys: seq<string>)
      modifies this`db
      ensures db == old(db) - Elements(keys)
    {
      for i := 0 to |keys|
        invariant db == old(db) - Elements(keys[..i])
      {
        assert Elements(keys[..i + 1]) == Elements(keys[..i]) + {keys[i]};
        db := db - {keys[i]};
      }
      assert keys[..|keys|] == keys;
    }

    method GetANNTStructuresReadOnly(camera: string, limit: int) returns (structures: seq<Event>)
      ensures structures == Payloads(db, Fetched(db, camera, limit))
      ensures exists keys :: Served(db, "pending_" + camera + "_", limit, keys, structures)
    {
      hide Served;
      var keys;
      structures, keys := Scan(CameraPrefix(camera), limit);
    }

    method DrainAllANNTs() returns (structures: seq<Event>)
      requires Valid()
      modifies this
      ensures Valid() && history == Apply(old(history), Drain)
      ensures var keys := Prefixed(old(db).Keys, PENDING);
              var all := Collect(old(db), keys, |keys|);
              (forall k :: k in all ==> Decodable(old(db), k)) && structures == Payloads(old(db), all)
      ensures exists keys :: Served(old(db), "pending_", |Waiting(old(db), "pending_")|, keys, structures)
      ensures forall k :: k in db <==> k in old(db) && !(|k| >= 8 && k[..8] == "pending_")
      ensures forall k :: k in db ==> db[k] == old(db)[k]
    {
      hide Collect;
      var pending := Prefixed(db.Keys, PENDING);
      var keys;
      structures, keys := Scan(PENDING, |pending|);
      ServedAll(db, keys, structures);
      history := Apply(history, Drain);
      db := db - pending;
    }

    method CleanupByAge(now: int)
      requires Valid()
      modifies this
      ensures Valid() && history == Apply(old(history), CleanUp(now))
      ensures forall k :: k in db <==> k in old(db) && !Outlived(old(db), k, now)
      ensures forall k :: k in db ==> db[k] == old(db)[k]
    {
      hide Less, HasPrefix;
      var ahead := set k | k in db && AtMost(PENDING, k);
      var keysToDelete: seq<string> := [];
      forall k | k in db && HasPrefix(k, PENDING) ensures AtMost(PENDING, k) {
        PrefixInterval(PENDING, k);
      }
      while ahead != {} && HasPrefix(Min(ahead), PENDING)
        invariant ahead <= db.Keys && forall k :: k in ahead ==> AtMost(PENDING, k)
        invariant forall k :: k in keysToDelete <==> k in Expired(db, now) && k !in ahead
        invariant unchanged(this)
        decreases ahead
      {
        var key := Min(ahead);
        if db[key].Encoded? && now - db[key].item.createdAt > ITEM_TTL {
          keysToDelete := keysToDelete + [key];
        }
        ahead := ahead - {key};
      }
      if ahead != {} {
        MinOfPrefixed(ahead, PENDING);
        assert forall k :: k in ahead ==> k !in Prefixed(ahead, PENDING);
      }
      assert Elements(keysToDelete) == Expired(db, now);
      OutlivedIsExpired(db, now);
      history := Apply(history, CleanUp(now));
      DeleteAll(keysToDelete);
    }

    /** The key scan behind the metrics page. */
    method GetESNsWithData() returns (esns: seq<string>)
      ensures esns == EsnScan(Prefixed(db.Keys, PENDING), [])
    {
      hide Less, HasPrefix, Split;
      var ahead := set k | k in db && AtMost(PENDING, k);
      esns := [];
      assert Prefixed(ahead, PENDING) == Prefixed(db.Keys, PENDING) by {
        forall k | k in db && HasPrefix(k, PENDING) ensures AtMost(PENDING, k) {
          PrefixInterval(PENDING, k);
        }
      }
      while ahead != {} && HasPrefix(Min(ahead), PENDING) && |esns| < ESN_SCAN_LIMIT
        invariant forall k :: k in ahead ==> AtMost(PENDING, k)
        invariant EsnScan(Prefixed(ahead, PENDING), esns) == EsnScan(Prefixed(db.Keys, PENDING), [])
        decreases ahead
      {
        var key := Min(ahead);
        MinOfPrefixed(ahead, PENDING);
        assert Prefixed(ahead, PENDING) - {key} == Prefixed(ahead - {key}, PENDING);
        var parts := Split(key);
        if |parts| >= 2 && parts[1] !in esns {
          esns := esns + [parts[1]];
        }
        ahead := ahead - {key};
      }
      if ahead != {} {
        MinOfPrefixed(ahead, PENDING);
      }
    }
  }
}
