/** Slot payloads. A payload value is the text the source stores for it; the empty string
    stands for a missing key, `None` and `""`, which every test in the source treats alike. */
module Slots {

  /** The payload keys the source names, and any other text a slot row may hold. */
  datatype Name =
    | Amount | Currency | OriginCurrency | WalletCurrency
    | RecipientName | RecipientPhone | RecipientEmail | AccountRef
    | PartnerName | CountryDestination | SenderName
    | MobileNumber | ProviderName | Note
    | MatchSource | MatchName | BeneficiarySelection
    | OtherName(text: string)

  type Fields = map<Name, string>

  function Get(fields: Fields, key: Name): string {
    if key in fields then fields[key] else ""
  }

  function FilledKeys(fields: Fields): set<Name> {
    set k | k in fields && fields[k] != ""
  }

  datatype Slot = Slot(name: Name, required: bool)

  function RequiredNames(slots: seq<Slot>): set<Name> {
    set i | 0 <= i < |slots| && slots[i].required :: slots[i].name
  }

  /** The required slots that are empty in `fields`, in slot order. */
  function Missing(slots: seq<Slot>, fields: Fields): (missing: seq<Name>) {
    if slots == [] then []
    else
      var last := slots[|slots| - 1];
      Missing(slots[..|slots| - 1], fields)
      + if last.required && Get(fields, last.name) == "" then [last.name] else []
  }

  lemma RequiredOfOneMore(slots: seq<Slot>, n: Name)
    requires slots != []
    ensures n in RequiredNames(slots) <==>
      n in RequiredNames(slots[..|slots| - 1]) || Slot(n, true) == slots[|slots| - 1]
  {
    if n in RequiredNames(slots[..|slots| - 1]) {
      var i :| 0 <= i < |slots| - 1 && slots[i].required && slots[i].name == n;
    }
  }

  lemma {:induction false} MissingIsExact(slots: seq<Slot>, fields: Fields)
    ensures forall n :: n in Missing(slots, fields) <==> n in RequiredNames(slots) && Get(fields, n) == ""
  {
    if slots != [] {
      MissingIsExact(slots[..|slots| - 1], fields);
      forall n { RequiredOfOneMore(slots, n); }
    }
  }

  lemma {:induction false} NothingMissing(slots: seq<Slot>, fields: Fields)
    requires forall n :: n in RequiredNames(slots) ==> Get(fields, n) != ""
    ensures Missing(slots, fields) == []
  {
    if slots != [] {
      forall n { RequiredOfOneMore(slots, n); }
      NothingMissing(slots[..|slots| - 1], fields);
    }
  }

  /** Two payloads that fill the same required slots miss the same ones. */
  lemma {:induction false} MissingAgree(slots: seq<Slot>, f: Fields, g: Fields)
    requires forall n :: n in RequiredNames(slots) ==> (Get(f, n) == "" <==> Get(g, n) == "")
    ensures Missing(slots, f) == Missing(slots, g)
  {
    if slots != [] {
      forall n { RequiredOfOneMore(slots, n); }
      MissingAgree(slots[..|slots| - 1], f, g);
    }
  }

  method RequiredMissingFields(slots: seq<Slot>, fields: Fields) returns (missing: seq<Name>)
    ensures missing == Missing(slots, fields)
  {
    missing := [];
    for i := 0 to |slots|
      invariant missing == Missing(slots[..i], fields)
    {
      assert slots[..i + 1][..i] == slots[..i];
      if slots[i].required && Get(fields, slots[i].name) == "" {
        missing := missing + [slots[i].name];
      }
    }
    assert slots[..|slots|] == slots;
  }

  /** What merging means: an incoming value wins when it is not empty. */
  function Merge(base: Fields, incoming: Fields): (merged: Fields)
    ensures forall k :: Get(merged, k) == if Get(incoming, k) != "" then Get(incoming, k) else Get(base, k)
  {
    map k | k in base.Keys + FilledKeys(incoming) :: if Get(incoming, k) != "" then incoming[k] else base[k]
  }

  /** So merging empties no key. */
  lemma MergeFills(base: Fields, incoming: Fields)
    ensures FilledKeys(Merge(base, incoming)) == FilledKeys(base) + FilledKeys(incoming)
  {
    var merged := Merge(base, incoming);
    forall k ensures k in FilledKeys(merged) <==> k in FilledKeys(base) || k in FilledKeys(incoming) {
      assert k in FilledKeys(merged) <==> Get(merged, k) != "";
      assert k in FilledKeys(base) <==> Get(base, k) != "";
      assert k in FilledKeys(incoming) <==> Get(incoming, k) != "";
    }
  }

  method MergeEntities(base: Fields, incoming: Fields) returns (merged: Fields)
    ensures merged == Merge(base, incoming)
  {
    merged := base;
    var left := incoming.Keys;
    while left != {}
      invariant left <= incoming.Keys
      invariant forall k :: k in merged <==> k in base || (k in incoming && k !in left && incoming[k] != "")
      invariant forall k :: k in merged ==>
        merged[k] == if k in incoming && k !in left && incoming[k] != "" then incoming[k] else base[k]
    {
      var key :| key in left;
      if incoming[key] != "" {
        merged := merged[key := incoming[key]];
      }
      left := left - {key};
    }
  }
}
