/** The lexicographic order of texts. */
module TextOrder {

  /** Strictly smaller in the order of a database or a marshalled map. */
  predicate Less(a: string, b: string) {
    b != "" && (a == "" || a[0] < b[0] || (a[0] == b[0] && Less(a[1..], b[1..])))
  }

  predicate AtMost(a: string, b: string) {
    a == b || Less(a, b)
  }

  lemma {:induction false} LessTotal(a: string, b: string)
    ensures Less(a, b) || a == b || Less(b, a)
    ensures !(Less(a, b) && Less(b, a)) && !Less(a, a)
  {
    if a == "" {
    } else {
      LessTotal(a[1..], a[1..]);
      if b != "" {
        LessTotal(a[1..], b[1..]);
        assert a[0] == b[0] && a[1..] == b[1..] ==> a == [a[0]] + a[1..] == b;
      }
    }
  }

  lemma {:induction false} LessTransitive(a: string, b: string, c: string)
    requires Less(a, b) && Less(b, c)
    ensures Less(a, c)
  {
    if a != "" && a[0] == b[0] == c[0] {
      LessTransitive(a[1..], b[1..], c[1..]);
    }
  }

  lemma {:induction false} LessAfterPrefix(p: string, a: string, b: string)
    ensures Less(p + a, p + b) <==> Less(a, b)
  {
    if p == "" {
      assert p + a == a && p + b == b;
    } else {
      assert (p + a)[1..] == p[1..] + a && (p + b)[1..] == p[1..] + b;
      LessAfterPrefix(p[1..], a, b);
    }
  }

  lemma {:induction false} LessByEqualLengths(a: string, b: string, x: string, y: string)
    requires |a| == |b| && a != b
    ensures Less(a + x, b + y) <==> Less(a, b)
  {
    assert (a + x)[1..] == a[1..] + x && (b + y)[1..] == b[1..] + y;
    if a[0] == b[0] {
      assert a == [a[0]] + a[1..] && b == [b[0]] + b[1..];
      LessByEqualLengths(a[1..], b[1..], x, y);
    }
  }

  /** The first text of a non-empty set. */
  function Min(keys: set<string>): (k: string)
    requires keys != {}
    ensures k in keys && forall j :: j in keys ==> AtMost(k, j)
  {
    MinExists(keys);
    AtMostAntisymmetric();
    var k :| k in keys && forall j :: j in keys ==> AtMost(k, j);
    k
  }

  lemma {:induction false} MinExists(keys: set<string>)
    requires keys != {}
    ensures exists k :: k in keys && forall j :: j in keys ==> AtMost(k, j)
    decreases keys
  {
    hide Less;
    var some :| some in keys;
    var others := keys - {some};
    assert keys == others + {some};
    if others != {} {
      MinExists(others);
      var k :| k in others && forall j :: j in others ==> AtMost(k, j);
      LessTotal(some, k);
      MinOfTwo(others, k, some);
    } else {
      assert forall j :: j in keys ==> AtMost(some, j);
    }
  }

  lemma MinOfTwo(others: set<string>, k: string, some: string)
    requires k in others && forall j :: j in others ==> AtMost(k, j)
    ensures exists m :: m in others + {some} && forall j :: j in others + {some} ==> AtMost(m, j)
  {
    hide Less;
    LessTotal(some, k);
    var m := if Less(some, k) then some else k;
    forall j | j in others + {some} ensures AtMost(m, j) {
      if Less(some, k) && j != some && j != k {
        assert AtMost(k, j);
        LessTransitive(some, k, j);
      }
    }
    assert m in others + {some};
  }

  lemma AtMostAntisymmetric()
    ensures forall a, b :: AtMost(a, b) && AtMost(b, a) ==> a == b
  {
    forall a, b | AtMost(a, b) && AtMost(b, a) ensures a == b {
      LessTotal(a, b);
    }
  }

  /** The last text of a non-empty set. */
  function Max(keys: set<string>): (k: string)
    requires keys != {}
    ensures k in keys && forall j :: j in keys ==> AtMost(j, k)
  {
    MaxExists(keys);
    AtMostAntisymmetric();
    var k :| k in keys && forall j :: j in keys ==> AtMost(j, k);
    k
  }

  lemma {:induction false} MaxExists(keys: set<string>)
    requires keys != {}
    ensures exists k :: k in keys && forall j :: j in keys ==> AtMost(j, k)
    decreases keys
  {
    hide Less;
    var least := Min(keys);
    var others := keys - {least};
    if others != {} {
      MaxExists(others);
      var k :| k in others && forall j :: j in others ==> AtMost(j, k);
      assert forall j :: j in keys ==> j == least || j in others;
    } else {
      assert keys == {least};
    }
  }
}
