/** Decoded register events: the JSON values the service works on, and the
    field look-ups the state machine makes on them. */
module Payload {

  datatype Option<+T> = None | Some(value: T)

  /** A decoded JSON value. Number literals stay uninterpreted. */
  datatype Json =
    | Null
    | Bool(b: bool)
    | Num(literal: string)
    | Str(s: string)
    | Arr(items: seq<Json>)
    | Obj(fields: map<string, Json>)

  /** One event: the decoded top-level JSON object. */
  type Event = map<string, Json>

  /** The value of a key when it is a JSON string (Go's checked type assertion). */
  function StringAt(e: Event, key: string): Option<string> {
    if key in e && e[key].Str? then Some(e[key].s) else None
  }

  function ObjectAt(e: Event, key: string): Option<Event> {
    if key in e && e[key].Obj? then Some(e[key].fields) else None
  }

  predicate IsStartDemarcator(e: Event) {
    StringAt(e, "CMD") == Some("StartTransaction")
  }

  predicate IsEndDemarcator(e: Event) {
    StringAt(e, "CMD") == Some("EndTransaction")
  }

  predicate IsDemarcator(e: Event) {
    IsStartDemarcator(e) || IsEndDemarcator(e)
  }

  // The three ways a transaction absorbs an event; the first match wins.
  predicate IsMeta(e: Event) { "metaData" in e }

  predicate IsHeader(e: Event) { !IsMeta(e) && "transactionHeader" in e }

  predicate IsOther(e: Event) { !IsMeta(e) && "transactionHeader" !in e }

  /** A cart event reporting the end of the transaction. */
  predicate IsCartEnd(e: Event) {
    IsOther(e) &&
    var cart := ObjectAt(e, "cartChangeTrail");
    cart.Some? && StringAt(cart.value, "eventResult") == Some("endOfTransaction")
  }

  predicate IsSpace(c: char) {
    '\t' <= c <= '\r' || c == ' ' || c == '\U{0085}' || c == '\U{00A0}' || c == '\U{1680}' ||
    '\U{2000}' <= c <= '\U{200A}' || c == '\U{2028}' || c == '\U{2029}' || c == '\U{202F}' ||
    c == '\U{205F}' || c == '\U{3000}'
  }

  function TrimSpace(s: string): string {
    if s != "" && IsSpace(s[0]) then TrimSpace(s[1..])
    else if s != "" && IsSpace(s[|s| - 1]) then TrimSpace(s[..|s| - 1])
    else s
  }

  /** The trimmed sequence number of an event's metaData; "" when it has none. */
  function TransactionSeqOf(e: Event): string {
    var meta := ObjectAt(e, "metaData");
    if meta.None? then "" else
      var number := StringAt(meta.value, "transactionSeqNumber");
      if number.None? then "" else TrimSpace(number.value)
  }
}
