/** Vocabulary for sequences and sets that all other modules share. */
module Collections {

  function Front<T>(s: seq<T>): seq<T>
    requires s != []
  {
    s[..|s| - 1]
  }

  function Last<T>(s: seq<T>): T
    requires s != []
  {
    s[|s| - 1]
  }

  function Elements<T>(s: seq<T>): set<T> {
    set x | x in s
  }

  predicate NoDuplicates<T(==)>(s: seq<T>) {
    forall i, j :: 0 <= i < j < |s| ==> s[i] != s[j]
  }

  /** `order` visits every element of `keys` once: an iteration over a map. */
  ghost predicate Enumerates<T(!new)>(order: seq<T>, keys: set<T>) {
    NoDuplicates(order) && forall k :: k in order <==> k in keys
  }

  lemma SubsetCount<T>(a: set<T>, b: set<T>)
    requires a <= b
    ensures |a| <= |b|
  {
    if x :| x in a {
      SubsetCount(a - {x}, b - {x});
    }
  }

  lemma {:induction false} SomeOrder<T(!new)>(keys: set<T>) returns (order: seq<T>)
    ensures Enumerates(order, keys)
    decreases keys
  {
    order := [];
    if k :| k in keys {
      var others := SomeOrder(keys - {k});
      order := others + [k];
      assert k !in others;
    }
  }
}
