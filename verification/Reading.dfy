/** What events say, in the words of their raw fields. The theorems about contents
    and places are stated in this vocabulary, which no operation uses. */
module Reading {
  import opened Payload

  predicate Commands(e: Event, name: string) {
    "CMD" in e && e["CMD"] == Str(name)
  }

  predicate Demarcates(e: Event) {
    Commands(e, "StartTransaction") || Commands(e, "EndTransaction")
  }

  /** A header event: metaData takes precedence. */
  predicate Heads(e: Event) {
    "transactionHeader" in e && "metaData" !in e
  }

  /** An event that goes into the list. */
  predicate Listed(e: Event) {
    "metaData" !in e && "transactionHeader" !in e
  }

  predicate EndsCart(e: Event) {
    Listed(e) && "cartChangeTrail" in e && e["cartChangeTrail"].Obj? &&
    "eventResult" in e["cartChangeTrail"].fields &&
    e["cartChangeTrail"].fields["eventResult"] == Str("endOfTransaction")
  }

  /** An event that becomes a record of its own once the triad is confirmed. */
  predicate SentAlone(e: Event) {
    Listed(e) && !Demarcates(e) && "paymentSummary" !in e && "transactionSummary" !in e && "transactionFooter" !in e
  }

  // ----- the number of an event -----

  predicate Blank(c: char) {
    c in {'\t', '\n', '\U{000B}', '\U{000C}', '\r', ' ', '\U{0085}', '\U{00A0}', '\U{1680}', '\U{2000}', '\U{2001}',
          '\U{2002}', '\U{2003}', '\U{2004}', '\U{2005}', '\U{2006}', '\U{2007}', '\U{2008}', '\U{2009}', '\U{200A}',
          '\U{2028}', '\U{2029}', '\U{202F}', '\U{205F}', '\U{3000}'}
  }

  /** `n` is `s` from the i-th to before the j-th character, without blanks at its
      ends and with blanks only around it. */
  ghost predicate TrimsAt(s: string, n: string, i: nat, j: nat) {
    i <= j <= |s| && n == s[i..j] && (forall k :: 0 <= k < i || j <= k < |s| ==> Blank(s[k])) &&
    (n != "" ==> !Blank(n[0]) && !Blank(n[|n| - 1]))
  }

  ghost predicate Trims(s: string, n: string) {
    exists i: nat, j: nat :: TrimsAt(s, n, i, j)
  }

  /** The text under transactionSeqNumber of the metaData object. */
  predicate CarriesText(e: Event, s: string) {
    "metaData" in e && e["metaData"].Obj? && "transactionSeqNumber" in e["metaData"].fields &&
    e["metaData"].fields["transactionSeqNumber"] == Str(s)
  }

  /** The event carries the transaction number `n`. */
  ghost predicate CarriesNumber(e: Event, n: string) {
    n != "" && exists s :: CarriesText(e, s) && Trims(s, n)
  }

  lemma SpaceIsBlank(c: char)
    ensures IsSpace(c) <==> Blank(c)
  {
  }

  lemma TrimsAfterBlank(s: string, n: string)
    requires s != "" && Blank(s[0]) && Trims(s[1..], n)
    ensures Trims(s, n)
  {
    hide Blank;
    var i: nat, j: nat :| TrimsAt(s[1..], n, i, j);
    assert forall k :: 1 <= k < |s| ==> s[k] == s[1..][k - 1];
    assert TrimsAt(s, n, i + 1, j + 1);
  }

  lemma TrimsBeforeBlank(s: string, n: string)
    requires s != "" && Blank(s[|s| - 1]) && Trims(s[..|s| - 1], n)
    ensures Trims(s, n)
  {
    hide Blank;
    var i: nat, j: nat :| TrimsAt(s[..|s| - 1], n, i, j);
    assert TrimsAt(s, n, i, j);
  }

  lemma {:induction false} TrimSpaceTrims(s: string)
    ensures Trims(s, TrimSpace(s))
  {
    hide IsSpace, Blank, Trims;
    if s == "" {
      TrimsItself(s);
    } else {
      SpaceIsBlank(s[0]);
      SpaceIsBlank(s[|s| - 1]);
      if Blank(s[0]) {
        TrimSpaceTrims(s[1..]);
        TrimsAfterBlank(s, TrimSpace(s));
      } else if Blank(s[|s| - 1]) {
        TrimSpaceTrims(s[..|s| - 1]);
        TrimsBeforeBlank(s, TrimSpace(s));
      } else {
        TrimsItself(s);
      }
    }
  }

  lemma TrimsItself(s: string)
    requires s != "" ==> !Blank(s[0]) && !Blank(s[|s| - 1])
    ensures Trims(s, s)
  {
    hide Blank;
    assert TrimsAt(s, s, 0, |s|);
  }

  lemma TrimsUnique(s: string, n: string, m: string)
    requires Trims(s, n) && Trims(s, m)
    ensures n == m
  {
    var i: nat, j: nat :| TrimsAt(s, n, i, j);
    var p: nat, q: nat :| TrimsAt(s, m, p, q);
    hide Blank;
    if n != "" {
      TrimWithin(s, n, i, j, m, p, q);
    }
    if m != "" {
      TrimWithin(s, m, p, q, n, i, j);
    }
  }

  lemma TrimWithin(s: string, n: string, i: nat, j: nat, m: string, p: nat, q: nat)
    requires TrimsAt(s, n, i, j) && TrimsAt(s, m, p, q) && n != ""
    ensures p <= i && j <= q
  {
    hide Blank;
    assert s[i] == n[0] && s[j - 1] == n[|n| - 1];
  }

  /** The number the program reads is the number the event carries. */
  lemma NumberRead(e: Event, n: string)
    ensures n != "" ==> (TransactionSeqOf(e) == n <==> CarriesNumber(e, n))
  {
    hide TrimSpace, Trims;
    if "metaData" in e && e["metaData"].Obj? && "transactionSeqNumber" in e["metaData"].fields &&
       e["metaData"].fields["transactionSeqNumber"].Str? {
      var s := e["metaData"].fields["transactionSeqNumber"].s;
      TrimSpaceTrims(s);
      assert CarriesText(e, s) && TransactionSeqOf(e) == TrimSpace(s);
      if Trims(s, n) {
        TrimsUnique(s, n, TrimSpace(s));
      }
    }
  }

  // ----- the predicates of the program, in these words -----

  lemma Readings(e: Event)
    ensures IsStartDemarcator(e) <==> Commands(e, "StartTransaction")
    ensures IsEndDemarcator(e) <==> Commands(e, "EndTransaction")
    ensures IsDemarcator(e) <==> Demarcates(e)
    ensures IsMeta(e) <==> "metaData" in e
    ensures IsHeader(e) <==> Heads(e)
    ensures IsOther(e) <==> Listed(e)
    ensures IsCartEnd(e) <==> EndsCart(e)
  {
  }

  // ----- index lists -----

  /** The members of `chosen` below `n`, ascending. */
  function Indices(n: nat, chosen: set<nat>): seq<nat> {
    if n == 0 then [] else Indices(n - 1, chosen) + if n - 1 in chosen then [n - 1] else []
  }

  lemma {:induction false} IndicesMeaning(n: nat, chosen: set<nat>)
    ensures forall i :: i in Indices(n, chosen) <==> i < n && i in chosen
    ensures forall j, k :: 0 <= j < k < |Indices(n, chosen)| ==> Indices(n, chosen)[j] < Indices(n, chosen)[k]
  {
    if n == 0 {
    } else {
      IndicesMeaning(n - 1, chosen);
      var before := Indices(n - 1, chosen);
      assert forall j :: 0 <= j < |before| ==> before[j] in before;
    }
  }

  lemma {:induction false} IndicesSame(n: nat, a: set<nat>, b: set<nat>)
    requires forall i :: 0 <= i < n ==> (i in a <==> i in b)
    ensures Indices(n, a) == Indices(n, b)
  {
    if n == 0 {
    } else {
      IndicesSame(n - 1, a, b);
    }
  }
}
