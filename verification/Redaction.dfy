/** Blanking the values under sensitive keys of a JSON tree, and nothing else. */
module Redaction {

  datatype Json =
    | Null
    | Bool(b: bool)
    | Number(n: int)
    | Text(s: string)
    | Array(items: seq<Json>)
    | Object(fields: seq<(string, Json)>)

  const SENTINEL: Json := Text("<redacted-at-migration>")

  /** Values under a sensitive key that are left as they are. */
  predicate Blank(v: Json) {
    v == Null || v == Text("") || v == SENTINEL
  }

  type Sensitive = string -> bool

  /** The tree after redaction. */
  function Redacted(sensitive: Sensitive, j: Json): Json {
    match j
    case Object(fields) =>
      Object(seq(|fields|, i requires 0 <= i < |fields| => (fields[i].0, RedactedField(sensitive, fields[i]))))
    case Array(items) => Array(seq(|items|, i requires 0 <= i < |items| => Redacted(sensitive, items[i])))
    case _ => j
  }

  function RedactedField(sensitive: Sensitive, field: (string, Json)): Json {
    if sensitive(field.0) then (if Blank(field.1) then field.1 else SENTINEL) else Redacted(sensitive, field.1)
  }

  /** The walk: every entry in turn, remembering whether anything changed. */
  method RedactSensitiveKeys(sensitive: Sensitive, j: Json) returns (out: Json, changed: bool)
    ensures out == Redacted(sensitive, j)
    ensures changed <==> out != j
    decreases j
  {
    changed := false;
    match j {
      case Object(fields) =>
        var now: seq<(string, Json)> := [];
        for i := 0 to |fields|
          invariant |now| == i
          invariant forall k | 0 <= k < i :: now[k] == (fields[k].0, RedactedField(sensitive, fields[k]))
          invariant changed <==> exists k | 0 <= k < i :: now[k] != fields[k]
        {
          var value := fields[i].1;
          if sensitive(fields[i].0) {
            if !Blank(value) {
              value := SENTINEL;
              changed := true;
            }
          } else {
            var sub: bool;
            value, sub := RedactSensitiveKeys(sensitive, value);
            changed := changed || sub;
          }
          now := now + [(fields[i].0, value)];
        }
        assert now != fields ==> exists k | 0 <= k < |fields| :: now[k] != fields[k];
        out := Object(now);
      case Array(items) =>
        var now: seq<Json> := [];
        for i := 0 to |items|
          invariant |now| == i
          invariant forall k | 0 <= k < i :: now[k] == Redacted(sensitive, items[k])
          invariant changed <==> exists k | 0 <= k < i :: now[k] != items[k]
        {
          var item, sub := RedactSensitiveKeys(sensitive, items[i]);
          changed := changed || sub;
          now := now + [item];
        }
        assert now != items ==> exists k | 0 <= k < |items| :: now[k] != items[k];
        out := Array(now);
      case _ =>
        out := j;
    }
  }

  // ---------------------------------------------------------------- what redaction guarantees

  /** No sensitive key, at any depth that redaction looks at, holds anything but null, "" or the sentinel. */
  predicate Clean(sensitive: Sensitive, j: Json) {
    match j
    case Object(fields) =>
      forall i | 0 <= i < |fields| ::
        if sensitive(fields[i].0) then fields[i].1 in {Null, Text(""), Text("<redacted-at-migration>")}
        else Clean(sensitive, fields[i].1)
    case Array(items) => forall i | 0 <= i < |items| :: Clean(sensitive, items[i])
    case _ => true
  }

  /** Same keys in the same order, same list lengths, same data everywhere outside sensitive keys. */
  predicate SameOutside(sensitive: Sensitive, a: Json, b: Json)
    decreases a
  {
    match a
    case Object(fields) =>
      && b.Object? && |b.fields| == |fields|
      && (forall i | 0 <= i < |fields| :: b.fields[i].0 == fields[i].0)
      && (forall i | 0 <= i < |fields| && !sensitive(fields[i].0) :: SameOutside(sensitive, fields[i].1, b.fields[i].1))
    case Array(items) =>
      && b.Array? && |b.items| == |items|
      && (forall i | 0 <= i < |items| :: SameOutside(sensitive, items[i], b.items[i]))
    case _ => a == b
  }

  /** Redaction keeps every key, every list length and all data outside sensitive keys. */
  lemma {:induction false} OutsideUntouched(sensitive: Sensitive, j: Json)
    ensures SameOutside(sensitive, j, Redacted(sensitive, j))
  {
    match j
    case Object(fields) =>
      forall i | 0 <= i < |fields| && !sensitive(fields[i].0)
        ensures SameOutside(sensitive, fields[i].1, Redacted(sensitive, fields[i].1))
      {
        OutsideUntouched(sensitive, fields[i].1);
      }
    case Array(items) =>
      forall i | 0 <= i < |items|
        ensures SameOutside(sensitive, items[i], Redacted(sensitive, items[i]))
      {
        OutsideUntouched(sensitive, items[i]);
      }
    case _ =>
  }

  /** After redaction no sensitive key holds anything but null, the empty string or the sentinel. */
  lemma {:induction false} RedactedIsClean(sensitive: Sensitive, j: Json)
    ensures Clean(sensitive, Redacted(sensitive, j))
  {
    match j
    case Object(fields) =>
      forall i | 0 <= i < |fields| && !sensitive(fields[i].0)
        ensures Clean(sensitive, Redacted(sensitive, fields[i].1))
      {
        RedactedIsClean(sensitive, fields[i].1);
      }
    case Array(items) =>
      forall i | 0 <= i < |items|
        ensures Clean(sensitive, Redacted(sensitive, items[i]))
      {
        RedactedIsClean(sensitive, items[i]);
      }
    case _ =>
  }

  /** A tree is left alone exactly when it is clean already. */
  lemma {:induction false} CleanIsFixed(sensitive: Sensitive, j: Json)
    ensures Redacted(sensitive, j) == j <==> Clean(sensitive, j)
  {
    match j
    case Object(fields) =>
      var now := Redacted(sensitive, j).fields;
      forall i | 0 <= i < |fields|
        ensures now[i] == fields[i] <==>
                if sensitive(fields[i].0) then Blank(fields[i].1) else Clean(sensitive, fields[i].1)
      {
        assert now[i] == (fields[i].0, RedactedField(sensitive, fields[i]));
        assert fields[i] == (fields[i].0, fields[i].1);
        if !sensitive(fields[i].0) {
          CleanIsFixed(sensitive, fields[i].1);
        }
      }
      assert now == fields <==> forall i | 0 <= i < |fields| :: now[i] == fields[i];
    case Array(items) =>
      var now := Redacted(sensitive, j).items;
      forall i | 0 <= i < |items|
        ensures now[i] == items[i] <==> Clean(sensitive, items[i])
      {
        CleanIsFixed(sensitive, items[i]);
      }
      assert now == items <==> forall i | 0 <= i < |items| :: now[i] == items[i];
    case _ =>
  }

  /** A second scrub finds nothing to do. */
  lemma Idempotent(sensitive: Sensitive, j: Json)
    ensures Redacted(sensitive, Redacted(sensitive, j)) == Redacted(sensitive, j)
  {
    RedactedIsClean(sensitive, j);
    CleanIsFixed(sensitive, Redacted(sensitive, j));
  }

  /** Only what must go goes: any tree with the same outside that keeps null and "" and marks the rest is this one. */
  lemma {:induction false} RedactionIsDetermined(sensitive: Sensitive, j: Json, other: Json)
    requires SameOutside(sensitive, j, other) && Marked(sensitive, j, other)
    ensures other == Redacted(sensitive, j)
    decreases j
  {
    match j
    case Object(fields) =>
      var now := Redacted(sensitive, j).fields;
      forall i | 0 <= i < |fields|
        ensures other.fields[i] == now[i]
      {
        assert now[i] == (fields[i].0, RedactedField(sensitive, fields[i]));
        assert other.fields[i] == (other.fields[i].0, other.fields[i].1);
        if !sensitive(fields[i].0) {
          RedactionIsDetermined(sensitive, fields[i].1, other.fields[i].1);
        }
      }
      assert other.fields == now;
    case Array(items) =>
      var now := Redacted(sensitive, j).items;
      forall i | 0 <= i < |items|
        ensures other.items[i] == now[i]
      {
        RedactionIsDetermined(sensitive, items[i], other.items[i]);
      }
      assert other.items == now;
    case _ =>
  }

  /** Under each sensitive key null and "" are kept and anything else is the sentinel. */
  predicate Marked(sensitive: Sensitive, a: Json, b: Json)
    requires SameOutside(sensitive, a, b)
    decreases a
  {
    match a
    case Object(fields) =>
      forall i | 0 <= i < |fields| ::
        if sensitive(fields[i].0) then
          b.fields[i].1 == (if fields[i].1 in {Null, Text("")} then fields[i].1 else Text("<redacted-at-migration>"))
        else Marked(sensitive, fields[i].1, b.fields[i].1)
    case Array(items) => forall i | 0 <= i < |items| :: Marked(sensitive, items[i], b.items[i])
    case _ => true
  }
}
