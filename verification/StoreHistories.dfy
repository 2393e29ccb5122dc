/** What holds after every history of store operations: no item lost or
    duplicated, cameras isolated, deliveries first in first out. */
module StoreHistories {
  import opened Collections
  import opened Payload
  import opened TextOrder
  import opened Keys
  import opened AnntStore

  // ----- conservation -----

  function EntryOf(item: ANNTItem): Entry {
    Entry(ItemKey(item), item)
  }

  function StoredEntries(stored: seq<ANNTItem>): multiset<Entry> {
    if stored == [] then multiset{} else StoredEntries(Front(stored)) + multiset{EntryOf(Last(stored))}
  }

  function DeliveredEntries(deliveries: seq<Delivery>): multiset<Entry> {
    if deliveries == [] then multiset{} else DeliveredEntries(Front(deliveries)) + multiset{Last(deliveries).entry}
  }

  /** Stored and initial items together are exactly the pending, delivered,
      expired, drained and overwritten ones, with multiplicity. */
  ghost predicate Conserved(initial: Database, h: History) {
    StoredEntries(h.stored) + Pending(initial) ==
    Pending(h.db) + DeliveredEntries(h.deliveries) + h.expired + h.drained + h.overwritten
  }

  lemma EntriesCount(db: Database, keys: set<string>, e: Entry)
    ensures Entries(db, keys)[e] ==
            if e.key in keys && Decodable(db, e.key) && db[e.key].item == e.item then 1 else 0
  {
    var all := set k | k in keys && k in db && db[k].Encoded? :: Entry(k, db[k].item);
    assert e == Entry(e.key, e.item);
    assert Entries(db, keys) == multiset(all);
  }

  lemma EntriesSplit(db: Database, gone: set<string>)
    ensures Pending(db) == Pending(db - gone) + Entries(db, gone)
  {
    hide Entries;
    forall e ensures Pending(db)[e] == Pending(db - gone)[e] + Entries(db, gone)[e] {
      EntriesCount(db, db.Keys, e);
      EntriesCount(db - gone, (db - gone).Keys, e);
      EntriesCount(db, gone, e);
    }
  }

  lemma PendingAfterStore(db: Database, key: string, item: ANNTItem)
    ensures Pending(db[key := Encoded(item)]) + Entries(db, {key}) == Pending(db) + multiset{Entry(key, item)}
  {
    var after := db[key := Encoded(item)];
    hide Entries;
    forall e ensures Pending(after)[e] + Entries(db, {key})[e] == Pending(db)[e] + multiset{Entry(key, item)}[e] {
      EntriesCount(db, db.Keys, e);
      EntriesCount(after, after.Keys, e);
      EntriesCount(db, {key}, e);
    }
  }

  lemma {:induction false} DeliveredEntriesAppend(a: seq<Delivery>, b: seq<Delivery>)
    ensures DeliveredEntries(a + b) == DeliveredEntries(a) + DeliveredEntries(b)
  {
    if b == [] {
      assert a + b == a;
    } else {
      assert Front(a + b) == a + Front(b) && Last(a + b) == Last(b);
      DeliveredEntriesAppend(a, Front(b));
      AddsAssociate(DeliveredEntries(a), DeliveredEntries(Front(b)), multiset{Last(b).entry});
      hide DeliveredEntries;
    }
  }

  lemma AddsAssociate<T>(x: multiset<T>, y: multiset<T>, z: multiset<T>)
    ensures x + y + z == x + (y + z)
  {
  }

  lemma {:induction false} FetchedEntries(db: Database, camera: string, keys: seq<string>)
    requires forall i :: 0 <= i < |keys| ==> Decodable(db, keys[i])
    requires Ascending(keys)
    ensures DeliveredEntries(Delivered(db, camera, keys)) == Entries(db, Elements(keys))
  {
    if keys == [] {
    } else {
      var front, last := Front(keys), Last(keys);
      FetchedEntries(db, camera, front);
      assert Front(Delivered(db, camera, keys)) == Delivered(db, camera, front);
      assert keys == front + [last];
      forall k | k in front ensures k != last {
        LessTotal(k, last);
      }
      hide Less, Entries;
      var x := Entry(last, db[last].item);
      forall e ensures Entries(db, Elements(keys))[e] == Entries(db, Elements(front))[e] + multiset{x}[e] {
        EntriesCount(db, Elements(front), e);
        EntriesCount(db, Elements(keys), e);
      }
    }
  }

  lemma ApplyConserves(initial: Database, h: History, op: Op)
    requires Conserved(initial, h)
    ensures Conserved(initial, Apply(h, op))
  {
    hide Pending, Entries, Fetched, Delivered, Expired, Prefixed, ItemKey;
    match op
    case Store(item) =>
      StoreConserves(initial, h, item);
    case Fetch(camera, limit) =>
      FetchConserves(initial, h, camera, limit);
    case Peek(_, _) =>
    case CleanUp(now) =>
      EntriesSplit(h.db, Expired(h.db, now));
    case Drain =>
      EntriesSplit(h.db, Prefixed(h.db.Keys, PENDING));
  }

  lemma StoreConserves(initial: Database, h: History, item: ANNTItem)
    requires Conserved(initial, h)
    ensures Conserved(initial, Apply(h, Store(item)))
  {
    hide Pending, Entries, ItemKey;
    var after := Apply(h, Store(item));
    PendingAfterStore(h.db, ItemKey(item), item);
    assert Front(after.stored) == h.stored && Last(after.stored) == item;
    Rebalance(StoredEntries(h.stored), Pending(initial), Pending(h.db), DeliveredEntries(h.deliveries), h.expired,
              h.drained, h.overwritten, Pending(after.db), Entries(h.db, {ItemKey(item)}), multiset{EntryOf(item)});
  }

  lemma Rebalance<T>(stored: multiset<T>, initial: multiset<T>, pending: multiset<T>, delivered: multiset<T>,
                     expired: multiset<T>, drained: multiset<T>, overwritten: multiset<T>, now: multiset<T>,
                     replaced: multiset<T>, entry: multiset<T>)
    requires stored + initial == pending + delivered + expired + drained + overwritten
    requires now + replaced == pending + entry
    ensures stored + entry + initial == now + delivered + expired + drained + (overwritten + replaced)
  {
    forall e
      ensures (stored + entry + initial)[e] == (now + delivered + expired + drained + (overwritten + replaced))[e]
    {
      assert (stored + initial)[e] == (pending + delivered + expired + drained + overwritten)[e];
      assert (now + replaced)[e] == (pending + entry)[e];
    }
  }

  lemma FetchConserves(initial: Database, h: History, camera: string, limit: int)
    requires Conserved(initial, h)
    ensures Conserved(initial, Apply(h, Fetch(camera, limit)))
  {
    var keys := Fetched(h.db, camera, limit);
    CollectOldest(h.db, Prefixed(h.db.Keys, CameraPrefix(camera)), limit);
    assert Ascending(keys);
    hide Pending, Entries, Fetched, Delivered, Collect, CameraPrefix, Ascending, Prefixed, StoredEntries;
    EntriesSplit(h.db, Elements(keys));
    FetchedEntries(h.db, camera, keys);
    DeliveredEntriesAppend(h.deliveries, Delivered(h.db, camera, keys));
    HandOver(StoredEntries(h.stored) + Pending(initial), Pending(h.db), DeliveredEntries(h.deliveries),
             h.expired, h.drained, h.overwritten, Pending(h.db - Elements(keys)), Entries(h.db, Elements(keys)));
    hide DeliveredEntries;
  }

  lemma HandOver<T>(all: multiset<T>, pending: multiset<T>, delivered: multiset<T>, expired: multiset<T>,
                    drained: multiset<T>, overwritten: multiset<T>, now: multiset<T>, taken: multiset<T>)
    requires all == pending + delivered + expired + drained + overwritten && pending == now + taken
    ensures all == now + (delivered + taken) + expired + drained + overwritten
  {
  }

  /** Over every history, from any initial database. */
  lemma {:induction false} HistoryConserves(initial: Database, ops: seq<Op>)
    ensures Conserved(initial, Run(initial, ops))
  {
    if ops == [] {
    } else {
      HistoryConserves(initial, Front(ops));
      ApplyConserves(initial, Run(initial, Front(ops)), Last(ops));
    }
  }

  // ----- reachable databases -----

  /** Every pending item is a stored one, under its own key. */
  ghost predicate Keyed(h: History) {
    forall k :: k in h.db ==> h.db[k].Encoded? && k == ItemKey(h.db[k].item) && h.db[k].item in h.stored
  }

  /** So was every delivered one. */
  ghost predicate DeliveredKeyed(h: History) {
    forall d :: d in h.deliveries ==> d.entry.key == ItemKey(d.entry.item) && d.entry.item in h.stored
  }

  lemma FetchKeyed(h: History, camera: string, limit: int)
    requires Keyed(h) && DeliveredKeyed(h)
    ensures DeliveredKeyed(Apply(h, Fetch(camera, limit)))
  {
    hide ItemKey, Fetched;
    var keys := Fetched(h.db, camera, limit);
    forall d | d in Delivered(h.db, camera, keys)
      ensures Decodable(h.db, d.entry.key) && d.entry.item == h.db[d.entry.key].item
    {
    }
    hide Delivered;
  }

  lemma ApplyKeyed(h: History, op: Op)
    requires Keyed(h) && DeliveredKeyed(h)
    ensures Keyed(Apply(h, op)) && DeliveredKeyed(Apply(h, op))
  {
    hide ItemKey, Expired, Prefixed, Entries, Fetched, Delivered;
    if op.Fetch? {
      FetchKeyed(h, op.camera, op.limit);
    }
  }

  lemma {:induction false} HistoryKeyed(ops: seq<Op>)
    ensures Keyed(Run(map[], ops))
    ensures forall d :: d in Run(map[], ops).deliveries ==>
              d.entry.key == ItemKey(d.entry.item) && d.entry.item in Run(map[], ops).stored
  {
    hide ItemKey, Apply, Keyed;
    if ops == [] {
      NothingKeyed();
    } else {
      HistoryKeyed(Front(ops));
      ApplyKeyed(Run(map[], Front(ops)), Last(ops));
    }
  }

  lemma NothingKeyed()
    ensures Keyed(Run(map[], []))
  {
  }

  // ----- every item exactly once -----

  ghost predicate DistinctKeys(stored: seq<ANNTItem>) {
    forall i, j :: 0 <= i < j < |stored| ==> ItemKey(stored[i]) != ItemKey(stored[j])
  }

  lemma {:induction false} StoredOnce(stored: seq<ANNTItem>, item: ANNTItem)
    requires DistinctKeys(stored)
    ensures StoredEntries(stored)[EntryOf(item)] == if item in stored then 1 else 0
  {
    hide ItemKey;
    if stored == [] {
    } else {
      assert stored == Front(stored) + [Last(stored)];
      StoredOnce(Front(stored), item);
      assert Last(stored) !in Front(stored);
    }
  }

  lemma {:induction false} NothingOverwritten(ops: seq<Op>)
    requires DistinctKeys(Run(map[], ops).stored)
    ensures Run(map[], ops).overwritten == multiset{}
  {
    if ops == [] {
    } else {
      var h, after := Run(map[], Front(ops)), Run(map[], ops);
      assert h.stored <= after.stored;
      assert forall i :: 0 <= i < |h.stored| ==> after.stored[i] == h.stored[i];
      NothingOverwritten(Front(ops));
      HistoryKeyed(Front(ops));
      hide ItemKey, Expired, Prefixed, Fetched;
      if Last(ops).Store? {
        var item := Last(ops).item;
        assert Last(after.stored) == item;
        assert ItemKey(item) !in h.db;
      }
    }
  }

  /** With distinct keys every stored item is in exactly one place, once:
      pending, delivered, expired or drained. */
  lemma ExactlyOnePlace(ops: seq<Op>, item: ANNTItem)
    requires DistinctKeys(Run(map[], ops).stored) && item in Run(map[], ops).stored
    ensures var h := Run(map[], ops);
            var e := EntryOf(item);
            Pending(h.db)[e] + DeliveredEntries(h.deliveries)[e] + h.expired[e] + h.drained[e] == 1
  {
    HistoryConserves(map[], ops);
    NothingOverwritten(ops);
    var h, e := Run(map[], ops), EntryOf(item);
    StoredOnce(h.stored, item);
    assert Pending(map[]) == multiset{};
    hide Run, Pending, DeliveredEntries, StoredEntries;
    assert (StoredEntries(h.stored) + multiset{})[e] == 1;
  }

  // ----- isolation -----

  ghost predicate AllPlain(stored: seq<ANNTItem>) {
    forall item :: item in stored ==> Plain(item.esn)
  }

  function PendingOf(db: Database, camera: string): set<string> {
    set k | k in db && db[k].Encoded? && db[k].item.esn == camera
  }

  /** The pending items a request is served from. */
  function ServedTo(db: Database, name: string): set<string> {
    set k | k in db && db[k].Encoded? && Serves(name, db[k].item.esn, db[k].item.createdAt, db[k].item.id)
  }

  /** Exactly what the scan behind a request sees, whatever the request. */
  lemma ScanSees(h: History, name: string)
    requires Keyed(h) && AllPlain(h.stored)
    ensures Prefixed(h.db.Keys, CameraPrefix(name)) == ServedTo(h.db, name)
  {
    hide HasPrefix, PendingKey, CameraPrefix, Serves;
    forall k | k in h.db
      ensures HasPrefix(k, CameraPrefix(name)) <==>
              Serves(name, h.db[k].item.esn, h.db[k].item.createdAt, h.db[k].item.id)
    {
      var item := h.db[k].item;
      assert item in h.stored;
      PrefixSelects(name, item.esn, item.createdAt, item.id);
    }
  }

  /** The requested name is no stored camera's ESN followed by a time. */
  ghost predicate CrossesNone(stored: seq<ANNTItem>, name: string) {
    forall item :: item in stored ==> !Crosses(name, item.esn)
  }

  /** Then the scan sees exactly that camera's items. */
  lemma ScanIsolates(h: History, camera: string)
    requires Keyed(h) && AllPlain(h.stored) && CrossesNone(h.stored, camera)
    ensures Prefixed(h.db.Keys, CameraPrefix(camera)) == PendingOf(h.db, camera)
    ensures DecodableOf(h.db, Prefixed(h.db.Keys, CameraPrefix(camera))) == PendingOf(h.db, camera)
  {
    ScanSees(h, camera);
    hide HasPrefix, PendingKey, CameraPrefix, Prefixed, CrossesAt;
    forall k | k in h.db
      ensures Serves(camera, h.db[k].item.esn, h.db[k].item.createdAt, h.db[k].item.id) <==> h.db[k].item.esn == camera
    {
      var item := h.db[k].item;
      assert item in h.stored;
      assert CrossesAt(camera, item.esn, item.createdAt) ==> Crosses(camera, item.esn);
    }
  }

  lemma PlainCrossesNone(stored: seq<ANNTItem>, name: string)
    requires Plain(name)
    ensures CrossesNone(stored, name)
  {
    hide Crosses, Plain;
    forall item | item in stored ensures !Crosses(name, item.esn) {
      if Crosses(name, item.esn) {
        CrossingHasUnderscore(name, item.esn);
        assert false;
      }
    }
  }

  /** What a fetch delivers: only this camera's items, oldest keys first, as many
      as the limit allows; nothing changes for any other camera. */
  lemma FetchIsolated(ops: seq<Op>, camera: string, limit: int)
    requires AllPlain(Run(map[], ops).stored) && CrossesNone(Run(map[], ops).stored, camera)
    ensures var h := Run(map[], ops);
            var keys := Fetched(h.db, camera, limit);
            Oldest(h.db, PendingOf(h.db, camera), limit, keys) &&
            forall other :: other != camera ==>
              PendingOf(Apply(h, Fetch(camera, limit)).db, other) == PendingOf(h.db, other)
  {
    var h := Run(map[], ops);
    HistoryKeyed(ops);
    ScanIsolates(h, camera);
    CollectOldest(h.db, Prefixed(h.db.Keys, CameraPrefix(camera)), limit);
    hide Collect, Prefixed, Run, CameraPrefix, Keyed, Ascending, Delivered, CrossesNone;
    var keys := Fetched(h.db, camera, limit);
    assert forall k :: k in keys ==> k in PendingOf(h.db, camera);
  }

  /** Without that, isolation fails: every request that crosses a camera can take
      one of its items. */
  lemma CrossingTakes(name: string, item: ANNTItem, limit: nat)
    requires Plain(item.esn) && limit > 0
    requires CrossesAt(name, item.esn, item.createdAt) && Serves(name, item.esn, item.createdAt, item.id)
    ensures name != item.esn
    ensures Fetched(Run(map[], [Store(item)]).db, name, limit) == [ItemKey(item)]
  {
    var k, h := ItemKey(item), Run(map[], [Store(item)]);
    assert h == Apply(Run(map[], []), Store(item)) && h.db == map[k := Encoded(item)];
    PrefixSelects(name, item.esn, item.createdAt, item.id);
    hide HasPrefix, PendingKey, Decimal, Less;
    assert Crosses(name, item.esn);
    CrossingHasUnderscore(name, item.esn);
    assert Prefixed(h.db.Keys, CameraPrefix(name)) == {k};
    CollectOldest(h.db, {k}, limit);
    assert DecodableOf(h.db, {k}) == {k};
    var keys := Fetched(h.db, name, limit);
    assert |keys| == 1 && keys[0] in keys;
  }

  /** A request for the ESN and the creation time takes that camera's item. */
  lemma TimestampRequestTakes(item: ANNTItem)
    requires Plain(item.esn)
    ensures Fetched(Run(map[], [Store(item)]).db, item.esn + "_" + Decimal(item.createdAt), 1) == [ItemKey(item)]
  {
    var name := item.esn + "_" + Decimal(item.createdAt);
    assert name == item.esn + ("_" + Decimal(item.createdAt));
    assert CrossesAt(name, item.esn, item.createdAt);
    CrossingTakes(name, item, 1);
  }

  /** Age cleanup removes exactly the items older than 72 hours. */
  lemma CleanUpExact(ops: seq<Op>, now: int, k: string)
    requires k in Run(map[], ops).db
    ensures var h := Run(map[], ops);
            h.db[k].Encoded? &&
            (k in Apply(h, CleanUp(now)).db <==> now - h.db[k].item.createdAt <= 259_200_000_000_000)
  {
    HistoryKeyed(ops);
    var item := Run(map[], ops).db[k].item;
    KeyFromPrefix(item.esn, item.createdAt, item.id);
  }

  /** A drain leaves nothing. */
  lemma DrainExact(ops: seq<Op>)
    ensures Apply(Run(map[], ops), Drain).db == map[]
  {
    HistoryKeyed(ops);
    var h := Run(map[], ops);
    forall k | k in h.db ensures HasPrefix(k, PENDING) {
      var item := h.db[k].item;
      KeyFromPrefix(item.esn, item.createdAt, item.id);
    }
  }

  // ----- first in, first out -----

  /** The camera's items are stored in time order. */
  ghost predicate StoredInOrder(stored: seq<ANNTItem>, camera: string) {
    forall i, j :: 0 <= i < j < |stored| && stored[i].esn == camera && stored[j].esn == camera ==>
      stored[i].createdAt <= stored[j].createdAt
  }

  /** Their times sort as text the way they do as numbers. */
  ghost predicate TimesSort(stored: seq<ANNTItem>, camera: string) {
    forall x, y :: x in stored && y in stored && x.esn == camera && y.esn == camera && x.createdAt < y.createdAt ==>
      OrderKept(x.createdAt, y.createdAt)
  }

  ghost predicate DeliveredInOrder(deliveries: seq<Delivery>, camera: string) {
    forall i, j :: 0 <= i < j < |deliveries| && deliveries[i].camera == camera && deliveries[j].camera == camera ==>
      deliveries[i].entry.item.createdAt <= deliveries[j].entry.item.createdAt
  }

  /** Everything delivered is the camera's own and no younger than what waits. */
  ghost predicate DeliveredFirst(h: History, camera: string) {
    forall d :: d in h.deliveries && d.camera == camera ==>
      d.entry.item.esn == camera &&
      forall k :: k in PendingOf(h.db, camera) ==> d.entry.item.createdAt <= h.db[k].item.createdAt
  }

  /** The items of one camera, in key order, are in time order. */
  lemma KeysInTimeOrder(h: History, camera: string, a: string, b: string)
    requires Keyed(h) && TimesSort(h.stored, camera)
    requires a in PendingOf(h.db, camera) && b in PendingOf(h.db, camera) && Less(a, b)
    ensures h.db[a].item.createdAt <= h.db[b].item.createdAt
  {
    hide Less, PendingKey, OrderKept;
    var x, y := h.db[a].item, h.db[b].item;
    assert x in h.stored && y in h.stored;
    if y.createdAt < x.createdAt {
      KeyOrder(camera, y.createdAt, y.id, x.createdAt, x.id);
      LessTotal(a, b);
    }
  }

  lemma FetchInOrder(h: History, camera: string, limit: int)
    requires Keyed(h) && AllPlain(h.stored) && Plain(camera) && TimesSort(h.stored, camera)
    requires DeliveredInOrder(h.deliveries, camera) && DeliveredFirst(h, camera)
    ensures DeliveredInOrder(Apply(h, Fetch(camera, limit)).deliveries, camera)
    ensures DeliveredFirst(Apply(h, Fetch(camera, limit)), camera)
  {
    var keys, after := Fetched(h.db, camera, limit), Apply(h, Fetch(camera, limit));
    PlainCrossesNone(h.stored, camera);
    ScanIsolates(h, camera);
    CollectOldest(h.db, Prefixed(h.db.Keys, CameraPrefix(camera)), limit);
    assert Oldest(h.db, PendingOf(h.db, camera), limit, keys);
    hide Collect, Prefixed, CameraPrefix, Fetched, Keyed, TimesSort, AllPlain, Oldest, PendingOf, CrossesNone;
    OldestInOrder(h, camera, limit, keys);
    FetchAppends(h, after, camera, Delivered(h.db, camera, keys));
  }

  /** The oldest keys of a camera, once taken, carry the oldest times in order. */
  lemma OldestInOrder(h: History, camera: string, limit: int, keys: seq<string>)
    requires Keyed(h) && TimesSort(h.stored, camera)
    requires Oldest(h.db, PendingOf(h.db, camera), limit, keys) && forall k :: k in keys ==> Decodable(h.db, k)
    ensures var news := Delivered(h.db, camera, keys);
            (forall d :: d in news ==> TakenFrom(h.db, d, camera)) &&
            (forall i, j :: 0 <= i < j < |news| ==> news[i].entry.item.createdAt <= news[j].entry.item.createdAt) &&
            forall i, k :: 0 <= i < |news| && k in PendingOf(h.db - Elements(keys), camera) ==>
              news[i].entry.item.createdAt <= h.db[k].item.createdAt
  {
    hide Less, TimesSort, Keyed;
    var news := Delivered(h.db, camera, keys);
    forall i | 0 <= i < |keys| ensures keys[i] in PendingOf(h.db, camera) {
      assert keys[i] in keys;
    }
    forall i, j | 0 <= i < j < |news| ensures news[i].entry.item.createdAt <= news[j].entry.item.createdAt {
      KeysInTimeOrder(h, camera, keys[i], keys[j]);
    }
    forall i, k | 0 <= i < |news| && k in PendingOf(h.db - Elements(keys), camera)
      ensures news[i].entry.item.createdAt <= h.db[k].item.createdAt
    {
      assert k in PendingOf(h.db, camera) && keys[i] in keys && k !in keys;
      KeysInTimeOrder(h, camera, keys[i], k);
    }
  }

  /** A delivery of one of the camera's pending items. */
  predicate TakenFrom(db: Database, d: Delivery, camera: string) {
    Decodable(db, d.entry.key) && d.entry.item == db[d.entry.key].item && d.entry.item.esn == camera
  }

  lemma FetchAppends(h: History, after: History, camera: string, news: seq<Delivery>)
    requires DeliveredInOrder(h.deliveries, camera) && DeliveredFirst(h, camera)
    requires after.deliveries == h.deliveries + news
    requires forall k :: k in after.db ==> k in h.db && after.db[k] == h.db[k]
    requires forall d :: d in news ==> TakenFrom(h.db, d, camera)
    requires forall i, j :: 0 <= i < j < |news| ==> news[i].entry.item.createdAt <= news[j].entry.item.createdAt
    requires forall i, k :: 0 <= i < |news| && k in PendingOf(after.db, camera) ==>
               news[i].entry.item.createdAt <= after.db[k].item.createdAt
    ensures DeliveredInOrder(after.deliveries, camera) && DeliveredFirst(after, camera)
  {
    var n := |h.deliveries|;
    forall i, j | 0 <= i < j < |after.deliveries| &&
                  after.deliveries[i].camera == camera && after.deliveries[j].camera == camera
      ensures after.deliveries[i].entry.item.createdAt <= after.deliveries[j].entry.item.createdAt
    {
      if i < n <= j {
        assert after.deliveries[i] in h.deliveries && after.deliveries[j] == news[j - n];
        assert news[j - n] in news && news[j - n].entry.key in PendingOf(h.db, camera);
      } else if n <= i {
        assert after.deliveries[i] == news[i - n] && after.deliveries[j] == news[j - n];
      }
    }
    forall d | d in after.deliveries && d.camera == camera
      ensures d.entry.item.esn == camera
      ensures forall k :: k in PendingOf(after.db, camera) ==> d.entry.item.createdAt <= after.db[k].item.createdAt
    {
      assert PendingOf(after.db, camera) <= PendingOf(h.db, camera);
      if d !in h.deliveries {
        var i :| 0 <= i < |news| && news[i] == d;
      }
    }
  }

  lemma StoreInOrder(h: History, item: ANNTItem, camera: string)
    requires Keyed(h) && StoredInOrder(h.stored + [item], camera)
    requires forall d :: d in h.deliveries ==> d.entry.item in h.stored
    requires DeliveredFirst(h, camera)
    ensures DeliveredFirst(Apply(h, Store(item)), camera)
  {
    hide ItemKey, Entries;
    var stored := h.stored + [item];
    assert stored[|h.stored|] == item;
    forall x | x in h.stored && x.esn == camera && item.esn == camera ensures x.createdAt <= item.createdAt {
      var i :| 0 <= i < |h.stored| && h.stored[i] == x;
      assert stored[i] == x;
    }
  }

  /** Other cameras' fetches and removals deliver nothing to this camera. */
  lemma ShrinkInOrder(h: History, after: History, camera: string)
    requires DeliveredInOrder(h.deliveries, camera) && DeliveredFirst(h, camera)
    requires forall k :: k in after.db ==> k in h.db && after.db[k] == h.db[k]
    requires h.deliveries <= after.deliveries
    requires forall i :: |h.deliveries| <= i < |after.deliveries| ==> after.deliveries[i].camera != camera
    ensures DeliveredInOrder(after.deliveries, camera) && DeliveredFirst(after, camera)
  {
    assert forall i :: 0 <= i < |h.deliveries| ==> after.deliveries[i] == h.deliveries[i];
    assert forall d :: d in after.deliveries && d.camera == camera ==> d in h.deliveries;
    assert PendingOf(after.db, camera) <= PendingOf(h.db, camera);
  }

  lemma {:induction false} PlainDeliveries(ops: seq<Op>, camera: string)
    requires Plain(camera) && AllPlain(Run(map[], ops).stored)
    requires StoredInOrder(Run(map[], ops).stored, camera) && TimesSort(Run(map[], ops).stored, camera)
    ensures DeliveredInOrder(Run(map[], ops).deliveries, camera)
    ensures DeliveredFirst(Run(map[], ops), camera)
  {
    if ops == [] {
    } else {
      var h, after := Run(map[], Front(ops)), Run(map[], ops);
      EarlierInOrder(h.stored, after.stored, camera);
      PlainDeliveries(Front(ops), camera);
      HistoryKeyed(Front(ops));
      hide StoredInOrder, TimesSort, DeliveredInOrder, DeliveredFirst, Fetched, Expired, Prefixed, Entries, Keyed,
           AllPlain, ItemKey;
      match Last(ops)
      case Store(item) => StoreInOrder(h, item, camera);
      case Fetch(other, limit) =>
        if other == camera {
          FetchInOrder(h, camera, limit);
        } else {
          ShrinkInOrder(h, after, camera);
        }
      case Peek(_, _) =>
      case CleanUp(_) => ShrinkInOrder(h, after, camera);
      case Drain => ShrinkInOrder(h, after, camera);
    }
  }

  lemma EarlierInOrder(before: seq<ANNTItem>, stored: seq<ANNTItem>, camera: string)
    requires before <= stored && StoredInOrder(stored, camera) && TimesSort(stored, camera) && AllPlain(stored)
    ensures StoredInOrder(before, camera) && TimesSort(before, camera) && AllPlain(before)
  {
    hide OrderKept, Plain;
    assert forall i :: 0 <= i < |before| ==> stored[i] == before[i];
    assert forall x :: x in before ==> x in stored;
  }

  /** Every delivery was one the request is served from. */
  ghost predicate DeliveriesServed(h: History) {
    forall d :: d in h.deliveries ==>
      Plain(d.entry.item.esn) && Serves(d.camera, d.entry.item.esn, d.entry.item.createdAt, d.entry.item.id)
  }

  lemma FetchServed(h: History, name: string, limit: int)
    requires Keyed(h) && AllPlain(h.stored) && DeliveriesServed(h)
    ensures DeliveriesServed(Apply(h, Fetch(name, limit)))
  {
    var keys := Fetched(h.db, name, limit);
    ScanSees(h, name);
    CollectOldest(h.db, Prefixed(h.db.Keys, CameraPrefix(name)), limit);
    hide Collect, Prefixed, CameraPrefix, Serves, Plain, Ascending, Less;
    forall d | d in Delivered(h.db, name, keys)
      ensures Plain(d.entry.item.esn)
      ensures d.camera == name && Serves(name, d.entry.item.esn, d.entry.item.createdAt, d.entry.item.id)
    {
      assert d.entry.key in keys && d.entry.key in ServedTo(h.db, name);
    }
  }

  lemma {:induction false} HistoryServed(ops: seq<Op>)
    requires AllPlain(Run(map[], ops).stored)
    ensures DeliveriesServed(Run(map[], ops))
  {
    if ops == [] {
    } else {
      var h, after := Run(map[], Front(ops)), Run(map[], ops);
      assert forall x :: x in h.stored ==> x in after.stored;
      hide Serves, Plain, Fetched, Expired, Prefixed, Entries, ItemKey;
      HistoryServed(Front(ops));
      HistoryKeyed(Front(ops));
      hide Keyed;
      if Last(ops).Fetch? {
        FetchServed(h, Last(ops).camera, Last(ops).limit);
      }
    }
  }

  /** First in, first out: when a camera's items are stored in time order and their
      times sort as text, its deliveries are in time order, whatever else happens
      in between. A name that is no ESN is only ever served items of one time. */
  lemma DeliveriesInTimeOrder(ops: seq<Op>, camera: string)
    requires AllPlain(Run(map[], ops).stored)
    requires StoredInOrder(Run(map[], ops).stored, camera) && TimesSort(Run(map[], ops).stored, camera)
    ensures DeliveredInOrder(Run(map[], ops).deliveries, camera)
  {
    if Plain(camera) {
      PlainDeliveries(ops, camera);
    } else {
      HistoryServed(ops);
      var deliveries := Run(map[], ops).deliveries;
      hide Run, Serves, Plain, AllPlain, StoredInOrder, TimesSort;
      forall i, j | 0 <= i < j < |deliveries| && deliveries[i].camera == camera && deliveries[j].camera == camera
        ensures deliveries[i].entry.item.createdAt <= deliveries[j].entry.item.createdAt
      {
        var x, y := deliveries[i].entry.item, deliveries[j].entry.item;
        assert deliveries[i] in deliveries && deliveries[j] in deliveries;
        ServedSameTime(camera, x.esn, x.createdAt, x.id, y.esn, y.createdAt, y.id);
      }
    }
  }

  /** So is the list a fetch returns: its data are those of stored items in time
      order, no older one still waiting at that camera. */
  lemma ReturnedInTimeOrder(ops: seq<Op>, camera: string, limit: int, structures: seq<Event>)
    returns (items: seq<ANNTItem>)
    requires AllPlain(Run(map[], ops).stored) && Plain(camera)
    requires StoredInOrder(Run(map[], ops).stored, camera) && TimesSort(Run(map[], ops).stored, camera)
    requires Returned(Run(map[], ops), Run(map[], ops + [Fetch(camera, limit)]), camera, structures)
    ensures |items| == |structures|
    ensures forall i :: 0 <= i < |items| ==>
              items[i] in Run(map[], ops).stored && items[i].esn == camera && items[i].anntData == structures[i]
    ensures forall i, j :: 0 <= i < j < |items| ==> items[i].createdAt <= items[j].createdAt
    ensures forall i, k :: 0 <= i < |items| && k in PendingOf(Run(map[], ops + [Fetch(camera, limit)]).db, camera) ==>
              items[i].createdAt <= Run(map[], ops + [Fetch(camera, limit)]).db[k].item.createdAt
  {
    var all := ops + [Fetch(camera, limit)];
    assert Front(all) == ops && Last(all) == Fetch(camera, limit);
    hide AllPlain, StoredInOrder, TimesSort, Keyed, ItemKey, Fetched, Plain, DeliveredInOrder, DeliveredFirst, Returned,
         Delivered;
    assert Run(map[], all).stored == Run(map[], ops).stored;
    PlainDeliveries(all, camera);
    HistoryKeyed(all);
    hide Run;
    items := ReturnedItems(Run(map[], ops), Run(map[], all), camera, structures);
  }

  lemma ReturnedItems(h: History, after: History, camera: string, structures: seq<Event>) returns (items: seq<ANNTItem>)
    requires Returned(h, after, camera, structures)
    requires DeliveredInOrder(after.deliveries, camera) && DeliveredFirst(after, camera)
    requires forall d :: d in after.deliveries ==> d.entry.item in after.stored
    ensures |items| == |structures|
    ensures forall i :: 0 <= i < |items| ==>
              items[i] in after.stored && items[i].esn == camera && items[i].anntData == structures[i]
    ensures forall i, j :: 0 <= i < j < |items| ==> items[i].createdAt <= items[j].createdAt
    ensures forall i, k :: 0 <= i < |items| && k in PendingOf(after.db, camera) ==>
              items[i].createdAt <= after.db[k].item.createdAt
  {
    var news := after.deliveries[|h.deliveries|..];
    items := seq(|news|, i requires 0 <= i < |news| => news[i].entry.item);
    assert DeliveredInOrder(news, camera) by {
      assert forall i :: 0 <= i < |news| ==> news[i] == after.deliveries[|h.deliveries| + i];
    }
    hide DeliveredInOrder;
    forall i | 0 <= i < |items|
      ensures items[i] in after.stored && items[i].esn == camera && items[i].anntData == structures[i]
      ensures forall k :: k in PendingOf(after.db, camera) ==> items[i].createdAt <= after.db[k].item.createdAt
    {
      assert news[i] in after.deliveries && news[i].camera == camera;
    }
  }

  /** There is only one list a scan can serve. */
  lemma ServedUnique(db: Database, prefix: string, limit: int, keys: seq<string>, structures: seq<Event>,
                     keys': seq<string>, structures': seq<Event>)
    requires Served(db, prefix, limit, keys, structures) && Served(db, prefix, limit, keys', structures')
    ensures keys == keys' && structures == structures'
  {
    AscendingDistinct(keys);
    AscendingDistinct(keys');
    hide Less, Waiting;
    forall k | k in keys ensures k in keys' {
      if k !in keys' {
        var j := SameSizeOther(Elements(keys), Elements(keys'), k);
        LessTotal(k, j);
        assert false;
      }
    }
    FullSubset(Elements(keys), Elements(keys'));
    AscendingUnique(keys, keys');
  }

  lemma SameSizeOther<T>(a: set<T>, b: set<T>, x: T) returns (y: T)
    requires |a| == |b| && x in a && x !in b
    ensures y in b && y !in a
  {
    if b <= a {
      assert b <= a - {x};
      SubsetCount(b, a - {x});
      assert false;
    }
    y :| y in b && y !in a;
  }

  lemma {:induction false} AscendingUnique(keys: seq<string>, keys': seq<string>)
    requires Ascending(keys) && Ascending(keys') && Elements(keys) == Elements(keys')
    ensures keys == keys'
  {
    hide Less;
    AscendingDistinct(keys);
    AscendingDistinct(keys');
    if keys == [] {
    } else {
      var last, last' := Last(keys), Last(keys');
      assert last in Elements(keys') && last' in Elements(keys);
      LessTotal(last, last');
      ElementsOfFront(keys);
      ElementsOfFront(keys');
      AscendingUnique(Front(keys), Front(keys'));
    }
  }

  lemma ElementsOfFront(keys: seq<string>)
    requires Ascending(keys) && keys != []
    ensures Elements(Front(keys)) == Elements(keys) - {Last(keys)} && Ascending(Front(keys))
  {
    hide Less;
    assert keys == Front(keys) + [Last(keys)];
    forall k | k in Front(keys) ensures k != Last(keys) {
      LessTotal(k, Last(keys));
    }
  }

  /** Both keys are taken, and their times do not sort as text. */
  predicate TakesUnsorted(db: Database, camera: string, keys: seq<string>, a: string, b: string) {
    a in keys && b in keys && a in PendingOf(db, camera) && b in PendingOf(db, camera) &&
    db[a].item.createdAt < db[b].item.createdAt && !OrderKept(db[a].item.createdAt, db[b].item.createdAt)
  }

  /** The converse: a fetch that returns two of the camera's items whose times do
      not sort as text delivers the later one first. */
  lemma FetchOutOfOrder(ops: seq<Op>, camera: string, limit: int, a: string, b: string)
    requires AllPlain(Run(map[], ops).stored)
    ensures var h := Run(map[], ops);
            TakesUnsorted(h.db, camera, Fetched(h.db, camera, limit), a, b) ==>
              !DeliveredInOrder(Apply(h, Fetch(camera, limit)).deliveries, camera)
  {
    var h := Run(map[], ops);
    var keys := Fetched(h.db, camera, limit);
    HistoryKeyed(ops);
    CollectOldest(h.db, Prefixed(h.db.Keys, CameraPrefix(camera)), limit);
    assert Ascending(keys);
    hide Run, Less, PendingKey, OrderKept, Fetched, AllPlain, Ascending;
    if TakesUnsorted(h.db, camera, keys, a, b) {
      var x, y := h.db[a].item, h.db[b].item;
      assert a == PendingKey(camera, x.createdAt, x.id) && b == PendingKey(camera, y.createdAt, y.id);
      KeyOrder(camera, x.createdAt, x.id, y.createdAt, y.id);
      LessTotal(a, b);
      var j, i := AscendingPositions(keys, b, a);
      LaterFirst(h.deliveries, h.db, camera, keys, j, i);
    }
  }

  lemma AscendingPositions(keys: seq<string>, first: string, second: string) returns (j: nat, i: nat)
    requires Ascending(keys) && first in keys && second in keys && Less(first, second)
    ensures j < i < |keys| && keys[j] == first && keys[i] == second
  {
    hide Less;
    j :| 0 <= j < |keys| && keys[j] == first;
    i :| 0 <= i < |keys| && keys[i] == second;
    LessTotal(first, second);
  }

  lemma LaterFirst(before: seq<Delivery>, db: Database, camera: string, keys: seq<string>, j: nat, i: nat)
    requires forall k :: 0 <= k < |keys| ==> Decodable(db, keys[k])
    requires j < i < |keys| && Decodable(db, keys[i]) && Decodable(db, keys[j])
    requires db[keys[i]].item.createdAt < db[keys[j]].item.createdAt
    ensures !DeliveredInOrder(before + Delivered(db, camera, keys), camera)
  {
    var n, after := |before|, before + Delivered(db, camera, keys);
    assert after[n + j] == Delivery(camera, Entry(keys[j], db[keys[j]].item));
    assert after[n + i] == Delivery(camera, Entry(keys[i], db[keys[i]].item));
  }

  function StoreAll(items: seq<ANNTItem>): seq<Op> {
    if items == [] then [] else StoreAll(Front(items)) + [Store(Last(items))]
  }

  lemma {:induction false} AllPending(items: seq<ANNTItem>)
    requires AllPlain(items)
    ensures var h := Run(map[], StoreAll(items));
            h.stored == items && h.deliveries == [] && Keyed(h) &&
            forall x :: x in items ==>
              ItemKey(x) in h.db && h.db[ItemKey(x)].Encoded? &&
              h.db[ItemKey(x)].item.esn == x.esn && h.db[ItemKey(x)].item.createdAt == x.createdAt
  {
    hide PendingKey, Entries, Plain, Keyed;
    if items == [] {
      HistoryKeyed([]);
    } else {
      var front, last := Front(items), Last(items);
      assert items == front + [last];
      assert AllPlain(front) && Plain(last.esn) by {
        assert last in items;
      }
      AllPending(front);
      HistoryKeyed(StoreAll(items));
      var ops := StoreAll(items);
      assert Front(ops) == StoreAll(front) && Last(ops) == Store(last);
      forall x | x in items && ItemKey(x) == ItemKey(last) ensures x.esn == last.esn && x.createdAt == last.createdAt {
        KeyInjective(x.esn, x.createdAt, x.id, last.esn, last.createdAt, last.id);
      }
    }
  }

  lemma UnsortedTaken(items: seq<ANNTItem>, camera: string, x: ANNTItem, y: ANNTItem) returns (limit: nat)
    requires AllPlain(items) && Plain(camera) && x in items && y in items && x.esn == camera && y.esn == camera
    requires x.createdAt < y.createdAt && !OrderKept(x.createdAt, y.createdAt)
    ensures var db := Run(map[], StoreAll(items)).db;
            TakesUnsorted(db, camera, Fetched(db, camera, limit), ItemKey(x), ItemKey(y))
  {
    hide Fetched, Keyed, OrderKept, ItemKey, Oldest, CrossesNone;
    AllPending(items);
    var before := StoreAll(items);
    var db := Run(map[], before).db;
    limit := |PendingOf(db, camera)|;
    PlainCrossesNone(items, camera);
    FetchIsolated(before, camera, limit);
    FetchedEverything(db, camera, Fetched(db, camera, limit));
    hide Run, AllPlain;
    assert ItemKey(x) in PendingOf(db, camera) && ItemKey(y) in PendingOf(db, camera);
  }

  /** Storing these items and fetching all of them delivers two out of order. */
  lemma StoreAllFetchAll(items: seq<ANNTItem>, camera: string) returns (ops: seq<Op>)
    requires AllPlain(items) && Plain(camera) && !TimesSort(items, camera)
    ensures Run(map[], ops).stored == items && !DeliveredInOrder(Run(map[], ops).deliveries, camera)
  {
    hide OrderKept, ItemKey, Keyed, Plain, Fetched, DeliveredInOrder, TakesUnsorted;
    var x, y :| x in items && y in items && x.esn == camera && y.esn == camera && x.createdAt < y.createdAt &&
                !OrderKept(x.createdAt, y.createdAt);
    var before := StoreAll(items);
    AllPending(items);
    var limit := UnsortedTaken(items, camera, x, y);
    ops := before + [Fetch(camera, limit)];
    assert Front(ops) == before && Last(ops) == Fetch(camera, limit);
    assert Run(map[], ops) == Apply(Run(map[], before), Fetch(camera, limit));
    hide Run, AllPlain;
    FetchOutOfOrder(before, camera, limit, ItemKey(x), ItemKey(y));
  }

  lemma FetchedEverything(db: Database, camera: string, keys: seq<string>)
    requires Oldest(db, PendingOf(db, camera), |PendingOf(db, camera)|, keys)
    ensures forall k :: k in PendingOf(db, camera) ==> k in keys
  {
    var all, taken := PendingOf(db, camera), Elements(keys);
    assert DecodableOf(db, all) == all;
    AscendingDistinct(keys);
    assert |keys| == |all| && taken <= all;
    hide Oldest;
    FullSubset(taken, all);
  }

  lemma {:induction false} AscendingDistinct(keys: seq<string>)
    requires Ascending(keys)
    ensures |Elements(keys)| == |keys|
  {
    if keys == [] {
    } else {
      var front, last := Front(keys), Last(keys);
      assert keys == front + [last];
      AscendingDistinct(front);
      forall k | k in front ensures k != last {
        LessTotal(k, last);
      }
      assert Elements(keys) == Elements(front) + {last};
    }
  }

  lemma FullSubset<T>(a: set<T>, b: set<T>)
    requires a <= b && |a| == |b|
    ensures a == b
  {
    assert b == a + (b - a) && |b| == |a| + |b - a|;
  }

  /** For items stored in time order: every history that stores them delivers them
      in time order if and only if their times sort as text. */
  lemma FirstInFirstOutIff(items: seq<ANNTItem>, camera: string)
    requires AllPlain(items) && StoredInOrder(items, camera)
    ensures (forall ops :: Run(map[], ops).stored == items ==> DeliveredInOrder(Run(map[], ops).deliveries, camera))
            <==> TimesSort(items, camera)
  {
    hide DeliveredInOrder, Run, StoredInOrder, OrderKept;
    if TimesSort(items, camera) {
      hide TimesSort;
      forall ops | Run(map[], ops).stored == items ensures DeliveredInOrder(Run(map[], ops).deliveries, camera) {
        DeliveriesInTimeOrder(ops, camera);
      }
    } else {
      var x, y :| x in items && y in items && x.esn == camera && y.esn == camera && x.createdAt < y.createdAt &&
                  !OrderKept(x.createdAt, y.createdAt);
      assert Plain(camera);
      hide TimesSort;
      var ops := StoreAllFetchAll(items, camera);
    }
  }

  /** Equally wide times sort as text, as all times from September 2001 on do. */
  lemma NineteenDigitsSort(stored: seq<ANNTItem>, camera: string)
    requires forall x :: x in stored && x.esn == camera ==>
               1_000_000_000_000_000_000 <= x.createdAt < 10_000_000_000_000_000_000
    ensures TimesSort(stored, camera)
  {
    hide Digits, Less;
    forall x, y | x in stored && y in stored && x.esn == camera && y.esn == camera && x.createdAt < y.createdAt
      ensures OrderKept(x.createdAt, y.createdAt)
    {
      NineteenDigits(x.createdAt);
      NineteenDigits(y.createdAt);
    }
  }

  function Item(createdAt: int): ANNTItem {
    ANNTItem("x", "", "", map[], 91, 1, createdAt, "e")
  }

  function NineThenTen(): seq<Op> {
    [Store(Item(9)), Store(Item(10)), Fetch("e", 1), Fetch("e", 1)]
  }

  /** With timestamps of different widths the order is lost: nine nanoseconds,
      stored before ten, is delivered after it. */
  lemma WidthBreaksOrder()
    ensures !DeliveredInOrder(Run(map[], NineThenTen()).deliveries, "e")
  {
    var ops, nine, ten := NineThenTen(), ItemKey(Item(9)), ItemKey(Item(10));
    hide Less, PendingKey, Fetched, ItemKey;
    NineAndTenPending();
    var h2, h3, h4 := Run(map[], ops[..2]), Run(map[], ops[..3]), Run(map[], ops);
    assert Front(ops) == ops[..3] && Front(ops[..3]) == ops[..2];
    FirstFetched(ops[..2], ten, nine);
    assert h3 == Apply(h2, Fetch("e", 1));
    assert h3.db == map[nine := Encoded(Item(9))];
    FirstFetched(ops[..3], nine, nine);
    assert h4 == Apply(h3, Fetch("e", 1));
    assert h4.deliveries[0].entry.item == Item(10) && h4.deliveries[1].entry.item == Item(9);
  }

  lemma NineAndTenPending()
    ensures var h := Run(map[], NineThenTen()[..2]);
            var nine, ten := ItemKey(Item(9)), ItemKey(Item(10));
            h.db == map[nine := Encoded(Item(9)), ten := Encoded(Item(10))] &&
            h.stored == [Item(9), Item(10)] && h.deliveries == [] && Less(ten, nine) && nine != ten
  {
    var ops := NineThenTen();
    WidthMatters();
    LessTotal(ItemKey(Item(10)), ItemKey(Item(9)));
    hide Less, PendingKey;
    assert Front(ops[..2]) == ops[..1] && Front(ops[..1]) == [];
    var h1, h2 := Run(map[], ops[..1]), Run(map[], ops[..2]);
    assert h1 == Apply(Run(map[], []), Store(Item(9))) && h2 == Apply(h1, Store(Item(10)));
  }

  lemma FirstFetched(ops: seq<Op>, first: string, other: string)
    requires AllPlain(Run(map[], ops).stored)
    requires PendingOf(Run(map[], ops).db, "e") == {first, other} && (first == other || Less(first, other))
    ensures Fetched(Run(map[], ops).db, "e", 1) == [first]
  {
    PlainCrossesNone(Run(map[], ops).stored, "e");
    FetchIsolated(ops, "e", 1);
    var db := Run(map[], ops).db;
    hide Less, Fetched, Run;
    var keys := Fetched(db, "e", 1);
    assert first in DecodableOf(db, PendingOf(db, "e"));
    assert |keys| == 1 && keys[0] in keys;
    if keys[0] == other && first != other {
      LessTotal(first, other);
    }
  }

  // ----- the cameras with data -----

  ghost predicate HasData(db: Database, esn: string) {
    exists k :: k in db && db[k].Encoded? && db[k].item.esn == esn
  }

  lemma {:induction false} EsnScanElements(keys: set<string>, esns: seq<string>)
    requires forall k :: k in keys ==> |Split(k)| >= 2
    requires NoDuplicates(esns) && |esns| <= ESN_SCAN_LIMIT
    ensures NoDuplicates(EsnScan(keys, esns)) && |EsnScan(keys, esns)| <= ESN_SCAN_LIMIT
    ensures forall e :: e in EsnScan(keys, esns) ==> e in esns || exists k :: k in keys && Split(k)[1] == e
    ensures forall e :: e in esns ==> e in EsnScan(keys, esns)
    ensures |EsnScan(keys, esns)| < ESN_SCAN_LIMIT ==> forall k :: k in keys ==> Split(k)[1] in EsnScan(keys, esns)
    decreases keys
  {
    hide Split;
    if keys != {} && |esns| < ESN_SCAN_LIMIT {
      var key := Min(keys);
      var camera := Split(key)[1];
      EsnScanElements(keys - {key}, if camera !in esns then esns + [camera] else esns);
    }
  }

  /** Some key names `e`, and all that name `f` come after it. */
  ghost predicate Precedes(keys: set<string>, e: string, f: string) {
    exists k :: k in keys && |Split(k)| >= 2 && Split(k)[1] == e &&
                forall j :: j in keys && |Split(j)| >= 2 && Split(j)[1] == f ==> Less(k, j)
  }

  lemma PrecedesFirst(keys: set<string>, f: string)
    requires keys != {} && |Split(Min(keys))| >= 2 && f != Split(Min(keys))[1]
    ensures Precedes(keys, Split(Min(keys))[1], f)
  {
    hide Split, Less;
    var k := Min(keys);
    forall j | j in keys && |Split(j)| >= 2 && Split(j)[1] == f ensures Less(k, j) {
      assert AtMost(k, j);
    }
  }

  lemma PrecedesLater(keys: set<string>, k: string, e: string, f: string)
    requires Precedes(keys - {k}, e, f) && k in keys && |Split(k)| >= 2 && f != Split(k)[1]
    ensures Precedes(keys, e, f)
  {
    hide Split, Less;
  }

  /** A camera listed comes before every camera listed later, or not at all. */
  lemma {:induction false} EsnScanOrder(keys: set<string>, esns: seq<string>)
    requires forall k :: k in keys ==> |Split(k)| >= 2
    ensures esns <= EsnScan(keys, esns)
    ensures forall i, f :: |esns| <= i < |EsnScan(keys, esns)| && f !in EsnScan(keys, esns)[..i + 1] ==>
              Precedes(keys, EsnScan(keys, esns)[i], f)
    decreases keys
  {
    hide Split, Precedes;
    if keys != {} && |esns| < ESN_SCAN_LIMIT {
      var key := Min(keys);
      var camera := Split(key)[1];
      var found := if camera !in esns then esns + [camera] else esns;
      EsnScanOrder(keys - {key}, found);
      var all := EsnScan(keys, esns);
      assert all == EsnScan(keys - {key}, found);
      hide EsnScan;
      forall i, f | |esns| <= i < |all| && f !in all[..i + 1] ensures Precedes(keys, all[i], f) {
        assert camera in all[..i + 1] by {
          var at :| 0 <= at < |found| && found[at] == camera && at <= i;
          assert all[..i + 1][at] == camera;
        }
        if i < |found| {
          assert all[i] == camera;
          PrecedesFirst(keys, f);
        } else {
          PrecedesLater(keys, key, all[i], f);
        }
      }
    }
  }

  /** The camera has an item whose key comes before those of all items of the other. */
  ghost predicate ListedBefore(db: Database, e: string, f: string) {
    exists k :: k in PendingOf(db, e) && forall j :: j in PendingOf(db, f) ==> Less(k, j)
  }

  /** The metrics page lists cameras that have pending items, each once, in the order
      of their first keys, and all of them when there are fewer than ten. */
  lemma EsnsWithData(ops: seq<Op>)
    requires AllPlain(Run(map[], ops).stored)
    ensures var h := Run(map[], ops);
            var esns := EsnScan(Prefixed(h.db.Keys, PENDING), []);
            NoDuplicates(esns) && |esns| <= 10 &&
            (forall e :: e in esns ==> HasData(h.db, e)) &&
            (forall i, f :: 0 <= i < |esns| && f !in esns[..i + 1] ==> ListedBefore(h.db, esns[i], f)) &&
            (|esns| < 10 ==> forall e :: HasData(h.db, e) ==> e in esns)
  {
    var h := Run(map[], ops);
    HistoryKeyed(ops);
    hide Split, HasPrefix, PendingKey, Run;
    forall k | k in h.db
      ensures HasPrefix(k, PENDING) && |Split(k)| >= 2 && Split(k)[1] == h.db[k].item.esn
    {
      var item := h.db[k].item;
      assert item in h.stored;
      KeyFromPrefix(item.esn, item.createdAt, item.id);
      SplitRecoversCamera(item.esn, item.createdAt, item.id);
    }
    EsnScanElements(Prefixed(h.db.Keys, PENDING), []);
    EsnScanOrder(Prefixed(h.db.Keys, PENDING), []);
    hide EsnScan, Keyed, Less;
    forall e, f | Precedes(Prefixed(h.db.Keys, PENDING), e, f) ensures ListedBefore(h.db, e, f) {
      var k :| k in h.db && Split(k)[1] == e &&
               forall j :: j in Prefixed(h.db.Keys, PENDING) && |Split(j)| >= 2 && Split(j)[1] == f ==> Less(k, j);
      assert k in PendingOf(h.db, e);
    }
  }
}
