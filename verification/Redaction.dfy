/** The redaction of request data before it is logged. */
module Redaction {
  import opened Text

  /** A JSON value; an object lists its members in order. */
  datatype Json =
    | Null | Bool(b: bool) | Number(n: real) | Str(s: string)
    | List(items: seq<Json>)
    | Object(members: seq<Member>)

  datatype Member = Member(key: string, value: Json)

  const SENSITIVE: set<string> := {
    "authorization", "cookie", "set-cookie", "x-access-token", "x-csrf-token",
    "password", "token", "secret", "otp", "pin"}

  const MARK := Str("[redacted]")
  const LIMIT := 2000
  const SUFFIX := "...[truncated]"

  predicate Sensitive(key: string) {
    Lower(key) in SENSITIVE
  }

  function Truncate(text: string, limit: nat): string {
    if |text| <= limit then text else text[..limit] + SUFFIX
  }

  function Redact(key: string, value: Json): Json
    decreases value
  {
    if Sensitive(key) then MARK
    else match value
      case Object(members) => Object(RedactMembers(members))
      case List(items) => List(RedactItems(key, items))
      case Str(s) => Str(Truncate(s, LIMIT))
      case _ => value
  }

  function RedactMembers(members: seq<Member>): (redacted: seq<Member>)
    ensures |redacted| == |members|
    decreases members
  {
    if members == [] then []
    else [Member(members[0].key, Redact(members[0].key, members[0].value))] + RedactMembers(members[1..])
  }

  function RedactItems(key: string, items: seq<Json>): (redacted: seq<Json>)
    ensures |redacted| == |items|
    decreases items
  {
    if items == [] then [] else [Redact(key, items[0])] + RedactItems(key, items[1..])
  }

  // ---------- What may be seen ----------

  /** Two texts with the same visible part. */
  predicate SameText(a: string, b: string) {
    a == b || (|a| > LIMIT && |b| > LIMIT && a[..LIMIT] == b[..LIMIT])
  }

  /** Two values that differ, if at all, beneath sensitive keys or past the visible part of a text. */
  predicate SameVisible(key: string, v: Json, w: Json)
    decreases v
  {
    Sensitive(key) ||
    match (v, w)
    case (Object(ms), Object(ns)) => SameMembers(ms, ns)
    case (List(xs), List(ys)) => SameItems(key, xs, ys)
    case (Str(s), Str(t)) => SameText(s, t)
    case _ => v == w
  }

  predicate SameMembers(ms: seq<Member>, ns: seq<Member>)
    decreases ms
  {
    |ms| == |ns|
    && (ms != [] ==>
      && ms[0].key == ns[0].key && SameVisible(ms[0].key, ms[0].value, ns[0].value)
      && SameMembers(ms[1..], ns[1..]))
  }

  predicate SameItems(key: string, xs: seq<Json>, ys: seq<Json>)
    decreases xs
  {
    |xs| == |ys| && (xs != [] ==> SameVisible(key, xs[0], ys[0]) && SameItems(key, xs[1..], ys[1..]))
  }

  lemma TruncateShowsVisiblePart(a: string, b: string)
    ensures Truncate(a, LIMIT) == Truncate(b, LIMIT) <==> SameText(a, b)
  {
    var x, y := Truncate(a, LIMIT), Truncate(b, LIMIT);
    if |a| > LIMIT && |b| > LIMIT {
      assert x[..LIMIT] == a[..LIMIT] && y[..LIMIT] == b[..LIMIT];
    }
  }

  /** Redaction shows the visible part and nothing else: two values are redacted alike exactly
      when they agree outside sensitive keys. */
  lemma {:induction false} RedactionShowsVisiblePart(key: string, v: Json, w: Json)
    ensures Redact(key, v) == Redact(key, w) <==> SameVisible(key, v, w)
    decreases v
  {
    if !Sensitive(key) {
      match (v, w)
      case (Object(ms), Object(ns)) => MembersShowVisiblePart(ms, ns);
      case (List(xs), List(ys)) => ItemsShowVisiblePart(key, xs, ys);
      case (Str(s), Str(t)) => TruncateShowsVisiblePart(s, t);
      case _ =>
    }
  }

  lemma {:induction false} MembersShowVisiblePart(ms: seq<Member>, ns: seq<Member>)
    ensures RedactMembers(ms) == RedactMembers(ns) <==> SameMembers(ms, ns)
    decreases ms
  {
    var x, y := RedactMembers(ms), RedactMembers(ns);
    if |ms| == |ns| && ms != [] {
      RedactionShowsVisiblePart(ms[0].key, ms[0].value, ns[0].value);
      MembersShowVisiblePart(ms[1..], ns[1..]);
      assert x[1..] == RedactMembers(ms[1..]) && y[1..] == RedactMembers(ns[1..]);
      assert x == y <==> x[0] == y[0] && x[1..] == y[1..];
    }
  }

  lemma {:induction false} ItemsShowVisiblePart(key: string, xs: seq<Json>, ys: seq<Json>)
    ensures RedactItems(key, xs) == RedactItems(key, ys) <==> SameItems(key, xs, ys)
    decreases xs
  {
    var x, y := RedactItems(key, xs), RedactItems(key, ys);
    if |xs| == |ys| && xs != [] {
      RedactionShowsVisiblePart(key, xs[0], ys[0]);
      ItemsShowVisiblePart(key, xs[1..], ys[1..]);
      assert x[1..] == RedactItems(key, xs[1..]) && y[1..] == RedactItems(key, ys[1..]);
      assert x == y <==> x[0] == y[0] && x[1..] == y[1..];
    }
  }

  // ---------- Idempotence ----------

  /** A value as redaction leaves it: marks under sensitive keys, texts short or already cut. */
  predicate Clean(key: string, v: Json)
    decreases v
  {
    if Sensitive(key) then v == MARK
    else match v
      case Object(members) => CleanMembers(members)
      case List(items) => CleanItems(key, items)
      case Str(s) => |s| <= LIMIT || s[LIMIT..] == SUFFIX
      case _ => true
  }

  predicate CleanMembers(members: seq<Member>)
    decreases members
  {
    members == [] || (Clean(members[0].key, members[0].value) && CleanMembers(members[1..]))
  }

  predicate CleanItems(key: string, items: seq<Json>)
    decreases items
  {
    items == [] || (Clean(key, items[0]) && CleanItems(key, items[1..]))
  }

  lemma TruncateFixes(s: string)
    ensures Truncate(s, LIMIT) == s <==> |s| <= LIMIT || s[LIMIT..] == SUFFIX
  {
    if |s| > LIMIT {
      assert s == s[..LIMIT] + s[LIMIT..];
    }
  }

  /** Redaction leaves alone exactly the clean values. */
  lemma {:induction false} RedactFixesClean(key: string, v: Json)
    ensures Redact(key, v) == v <==> Clean(key, v)
    decreases v
  {
    if !Sensitive(key) {
      match v
      case Object(members) => MembersFixClean(members);
      case List(items) => ItemsFixClean(key, items);
      case Str(s) => TruncateFixes(s);
      case _ =>
    }
  }

  lemma {:induction false} MembersFixClean(members: seq<Member>)
    ensures RedactMembers(members) == members <==> CleanMembers(members)
    decreases members
  {
    if members != [] {
      RedactFixesClean(members[0].key, members[0].value);
      MembersFixClean(members[1..]);
      assert members == [members[0]] + members[1..];
      assert RedactMembers(members)[1..] == RedactMembers(members[1..]);
    }
  }

  lemma {:induction false} ItemsFixClean(key: string, items: seq<Json>)
    ensures RedactItems(key, items) == items <==> CleanItems(key, items)
    decreases items
  {
    if items != [] {
      RedactFixesClean(key, items[0]);
      ItemsFixClean(key, items[1..]);
      assert items == [items[0]] + items[1..];
      assert RedactItems(key, items)[1..] == RedactItems(key, items[1..]);
    }
  }

  lemma {:induction false} RedactedIsClean(key: string, v: Json)
    ensures Clean(key, Redact(key, v))
    decreases v
  {
    if !Sensitive(key) {
      match v
      case Object(members) => RedactedMembersAreClean(members);
      case List(items) => RedactedItemsAreClean(key, items);
      case Str(s) =>
      case _ =>
    }
  }

  lemma {:induction false} RedactedMembersAreClean(members: seq<Member>)
    ensures CleanMembers(RedactMembers(members))
    decreases members
  {
    if members != [] {
      RedactedIsClean(members[0].key, members[0].value);
      RedactedMembersAreClean(members[1..]);
      assert RedactMembers(members)[1..] == RedactMembers(members[1..]);
    }
  }

  lemma {:induction false} RedactedItemsAreClean(key: string, items: seq<Json>)
    ensures CleanItems(key, RedactItems(key, items))
    decreases items
  {
    if items != [] {
      RedactedIsClean(key, items[0]);
      RedactedItemsAreClean(key, items[1..]);
      assert RedactItems(key, items)[1..] == RedactItems(key, items[1..]);
    }
  }

  /** Redacting twice is redacting once. */
  lemma RedactIsIdempotent(key: string, v: Json)
    ensures Redact(key, Redact(key, v)) == Redact(key, v)
  {
    RedactedIsClean(key, v);
    RedactFixesClean(key, Redact(key, v));
  }

  /** What is redacted still looks like the original outside sensitive keys: the same members, items and
      values, and the same visible part of each text. */
  lemma RedactKeepsShape(key: string, v: Json)
    ensures SameVisible(key, Redact(key, v), v)
  {
    RedactIsIdempotent(key, v);
    RedactionShowsVisiblePart(key, Redact(key, v), v);
  }

  // ---------- Which keys, which texts ----------

  /** A key counts in any mixture of upper and lower case. */
  lemma {:induction false} CaseIsIgnored(key: string, other: string, v: Json)
    requires Lower(key) == Lower(other)
    ensures Redact(key, v) == Redact(other, v)
    decreases v
  {
    if !Sensitive(key) && v.List? {
      CaseIsIgnoredInItems(key, other, v.items);
    }
  }

  lemma {:induction false} CaseIsIgnoredInItems(key: string, other: string, items: seq<Json>)
    requires Lower(key) == Lower(other)
    ensures RedactItems(key, items) == RedactItems(other, items)
    decreases items
  {
    if items != [] {
      CaseIsIgnored(key, other, items[0]);
      CaseIsIgnoredInItems(key, other, items[1..]);
    }
  }

  /** The ten keys whose values are never shown; under any other key a value that is no text, list or object
      is shown as it is, and a text up to its two thousandth character. */
  lemma SecretsAreMarked(key: string, v: Json)
    ensures var secret := Lower(key) in {"authorization", "cookie", "set-cookie", "x-access-token", "x-csrf-token",
        "password", "token", "secret", "otp", "pin"};
      && (secret ==> Redact(key, v) == Str("[redacted]"))
      && (!secret && (v.Null? || v.Bool? || v.Number?) ==> Redact(key, v) == v)
      && (!secret && v.Str? && |v.s| <= 2000 ==> Redact(key, v) == v)
      && (!secret && v.Str? && |v.s| > 2000 ==> Redact(key, v) == Str(v.s[..2000] + "...[truncated]"))
  {
  }
}
