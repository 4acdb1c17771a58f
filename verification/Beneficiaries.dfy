/** Which known beneficiary a transfer request means: the candidate list, the match by
    phone number, the match by name with its ambiguity margin, and the payload it fills. */
module Beneficiaries {
  import opened FirstMaximum
  import opened Rounding
  import opened Slots
  import opened Text

  datatype Source = SavedBeneficiary | TransferHistory

  /** A row of one of the two queries, saved beneficiaries and past transfers; `account` is the
      e-mail column of a saved row and the e-mail in the metadata of a past transfer. */
  datatype Row = Row(name: string, phone: string, partner: string, account: string, country: string, source: Source)

  datatype Candidate = Candidate(
    name: string, phone: string, account: string, partner: string, country: string, source: Source)

  datatype Key = Key(name: string, partner: string, phone: string, account: string)

  function RowKey(row: Row): Key {
    Key(Normalize(row.name), Normalize(row.partner), Strip(row.phone), Lower(Strip(row.account)))
  }

  function ToCandidate(row: Row): Candidate {
    Candidate(Strip(row.name), Strip(row.phone), Lower(Strip(row.account)), Strip(row.partner),
      Strip(row.country), row.source)
  }

  // ---------- The candidate list ----------

  /** No earlier key is the same. */
  predicate IsFirst<K(==)>(keys: seq<K>, i: nat)
    requires i < |keys|
  {
    keys[i] !in keys[..i]
  }

  function FirstIndices<K(==)>(keys: seq<K>): (kept: seq<nat>)
    ensures forall p :: 0 <= p < |kept| ==> kept[p] < |keys|
  {
    if keys == [] then []
    else
      var n := |keys| - 1;
      FirstIndices(keys[..n]) + if IsFirst(keys, n) then [n] else []
  }

  function Keys(rows: seq<Row>): (keys: seq<Key>)
    ensures |keys| == |rows|
  {
    seq(|rows|, i requires 0 <= i < |rows| => RowKey(rows[i]))
  }

  function Chosen(rows: seq<Row>, kept: seq<nat>): seq<Candidate>
    requires forall p :: 0 <= p < |kept| ==> kept[p] < |rows|
  {
    seq(|kept|, p requires 0 <= p < |kept| => ToCandidate(rows[kept[p]]))
  }

  /** Each key once, its first row winning. */
  function Candidates(rows: seq<Row>): seq<Candidate> {
    Chosen(rows, FirstIndices(Keys(rows)))
  }

  lemma {:induction false} KeptAreTheFirst<K>(keys: seq<K>)
    ensures forall i: nat :: i in FirstIndices(keys) <==> i < |keys| && IsFirst(keys, i)
    ensures forall p, q :: 0 <= p < q < |FirstIndices(keys)| ==> FirstIndices(keys)[p] < FirstIndices(keys)[q]
  {
    if keys != [] {
      var n := |keys| - 1;
      KeptAreTheFirst(keys[..n]);
      assert forall i :: 0 <= i < n ==> keys[..n][..i] == keys[..i];
    }
  }

  /** The first position of the key found at `i`. */
  lemma {:induction false} FirstOfKey<K>(keys: seq<K>, i: nat) returns (first: nat)
    requires i < |keys|
    ensures first <= i && keys[first] == keys[i] && IsFirst(keys, first)
    decreases i
  {
    if IsFirst(keys, i) {
      first := i;
    } else {
      var j :| 0 <= j < i && keys[j] == keys[i];
      first := FirstOfKey(keys, j);
    }
  }

  predicate FirstWins<K(==)>(keys: seq<K>, kept: seq<nat>) {
    && (forall p :: 0 <= p < |kept| ==> kept[p] < |keys|)
    && (forall p, q :: 0 <= p < q < |kept| ==> kept[p] < kept[q] && keys[kept[p]] != keys[kept[q]])
    && (forall i :: 0 <= i < |keys| ==> Represented(keys, kept, i))
  }

  predicate Represented<K(==)>(keys: seq<K>, kept: seq<nat>, i: nat)
    requires i < |keys|
  {
    exists first :: first in kept && first <= i && keys[first] == keys[i]
  }

  /** The kept rows are, in their original order, the first row of each key: no key
      comes twice and none is lost. */
  lemma CandidatesAreFirstWins<K>(keys: seq<K>)
    ensures FirstWins(keys, FirstIndices(keys))
  {
    var kept := FirstIndices(keys);
    KeptAreTheFirst(keys);
    forall p, q | 0 <= p < q < |kept| ensures keys[kept[p]] != keys[kept[q]] {
      assert kept[q] in kept && IsFirst(keys, kept[q]);
      assert keys[kept[p]] == keys[..kept[q]][kept[p]];
    }
    forall i | 0 <= i < |keys| ensures Represented(keys, kept, i) {
      var first := FirstOfKey(keys, i);
      assert first in kept;
    }
  }

  lemma OneMoreKey<K>(keys: seq<K>, key: K)
    ensures key !in keys ==> FirstIndices(keys + [key]) == FirstIndices(keys) + [|keys|]
    ensures key in keys ==> FirstIndices(keys + [key]) == FirstIndices(keys)
  {
    assert (keys + [key])[..|keys|] == keys;
    assert IsFirst(keys + [key], |keys|) <==> key !in keys;
  }

  /** The loop over the rows, with its `seen` set. */
  method KeepFirst<K(==)>(keys: seq<K>) returns (kept: seq<nat>)
    ensures kept == FirstIndices(keys)
  {
    kept := [];
    var seen: set<K> := {};
    for i := 0 to |keys|
      invariant kept == FirstIndices(keys[..i])
      invariant forall j :: 0 <= j < i ==> keys[j] in seen
      invariant forall k :: k in seen ==> k in keys[..i]
    {
      OneMoreKey(keys[..i], keys[i]);
      assert keys[..i + 1] == keys[..i] + [keys[i]];
      if keys[i] !in seen {
        seen := seen + {keys[i]};
        kept := kept + [i];
      }
    }
    assert keys[..|keys|] == keys;
  }

  method LoadCandidates(rows: seq<Row>) returns (candidates: seq<Candidate>)
    ensures candidates == Candidates(rows)
  {
    var kept := KeepFirst(Keys(rows));
    candidates := Chosen(rows, kept);
  }

  // ---------- Scores ----------

  /** `SequenceMatcher(...).ratio()`: any function. */
  type Ratio = (string, string) -> real

  function MatchScore(ratio: Ratio, query: string, candidate: string): real {
    var q, c := Normalize(query), Normalize(candidate);
    if q == "" || c == "" then 0.0
    else if q == c then 1.0
    else if Contains(c, q) || Contains(q, c) then 0.96
    else ratio(q, c)
  }

  function Score(ratio: Ratio, name: string, partner: string, item: Candidate): real {
    MatchScore(ratio, name, item.name)
    + if partner != "" && Normalize(partner) == Normalize(item.partner) then 0.1 else 0.0
  }

  function Scores(ratio: Ratio, name: string, partner: string, items: seq<Candidate>): seq<real> {
    seq(|items|, i requires 0 <= i < |items| => Score(ratio, name, partner, items[i]))
  }

  // ---------- Hits and their order ----------

  const THRESHOLD := 0.72
  const MARGIN := 0.08

  datatype Hit = Hit(index: nat, score: real)

  predicate Ascending(hits: seq<Hit>) {
    forall p, q :: 0 <= p < q < |hits| ==> hits[p].index < hits[q].index
  }

  function Hits(scores: seq<real>): (hits: seq<Hit>)
    ensures forall h :: h in hits <==>
      h.index < |scores| && scores[h.index] >= THRESHOLD && h.score == ToMillis(scores[h.index])
    ensures forall p, q :: 0 <= p < q < |hits| ==> hits[p] != hits[q]
  {
    if scores == [] then []
    else
      var n := |scores| - 1;
      var before := Hits(scores[..n]);
      if scores[n] >= THRESHOLD then before + [Hit(n, ToMillis(scores[n]))] else before
  }

  lemma {:induction false} HitsAscend(scores: seq<real>)
    ensures Ascending(Hits(scores))
  {
    if scores != [] {
      var before := Hits(scores[..|scores| - 1]);
      HitsAscend(scores[..|scores| - 1]);
      assert forall p :: 0 <= p < |before| ==> before[p] in before;
    }
  }

  /** Python's order of strings. */
  predicate TextBefore(a: string, b: string) {
    b != "" && (a == "" || a[0] < b[0] || (a[0] == b[0] && TextBefore(a[1..], b[1..])))
  }

  predicate KeyBefore(items: seq<Candidate>, a: Hit, b: Hit)
    requires a.index < |items| && b.index < |items|
  {
    a.score < b.score || (a.score == b.score && TextBefore(items[a.index].partner, items[b.index].partner))
  }

  predicate InRange(items: seq<Candidate>, hits: seq<Hit>) {
    forall p :: 0 <= p < |hits| ==> hits[p].index < |items|
  }

  predicate Descending(hits: seq<Hit>) {
    forall p, q :: 0 <= p < q < |hits| ==> hits[p].score >= hits[q].score
  }

  function Insert(items: seq<Candidate>, x: Hit, hits: seq<Hit>): (r: seq<Hit>)
    requires x.index < |items| && InRange(items, hits)
    ensures InRange(items, r) && multiset(r) == multiset([x]) + multiset(hits)
  {
    if hits == [] then [x]
    else if KeyBefore(items, hits[0], x) then
      [x] + hits
    else
      var r := [hits[0]] + Insert(items, x, hits[1..]);
      assert hits == [hits[0]] + hits[1..];
      r
  }

  /** `sorted(..., reverse=True)`: highest key first, equal keys in their original order. */
  function Sorted(items: seq<Candidate>, hits: seq<Hit>): (r: seq<Hit>)
    requires InRange(items, hits)
    ensures InRange(items, r) && multiset(r) == multiset(hits) && |r| == |hits|
  {
    if hits == [] then []
    else
      var n := |hits| - 1;
      assert hits == hits[..n] + [hits[n]];
      var r := Insert(items, hits[n], Sorted(items, hits[..n]));
      assert |multiset(r)| == |multiset(hits)|;
      r
  }

  /** Whatever is not below a text is below what that text is below. */
  lemma {:induction false} TextOrder(a: string, b: string, c: string)
    requires TextBefore(a, c) && !TextBefore(a, b)
    ensures TextBefore(b, c)
  {
    if b != "" && a[0] == b[0] == c[0] {
      TextOrder(a[1..], b[1..], c[1..]);
    }
  }

  lemma KeyOrder(items: seq<Candidate>, a: Hit, b: Hit, c: Hit)
    requires a.index < |items| && b.index < |items| && c.index < |items|
    requires KeyBefore(items, a, c) && !KeyBefore(items, a, b)
    ensures KeyBefore(items, b, c)
  {
    if a.score == b.score == c.score {
      TextOrder(items[a.index].partner, items[b.index].partner, items[c.index].partner);
    }
  }

  /** Where the keys differ the higher one comes first, where they do not the earlier candidate. */
  predicate Ahead(items: seq<Candidate>, a: Hit, b: Hit)
    requires a.index < |items| && b.index < |items|
  {
    KeyBefore(items, b, a) || (!KeyBefore(items, a, b) && a.index < b.index)
  }

  predicate Ranked(items: seq<Candidate>, hits: seq<Hit>)
    requires InRange(items, hits)
  {
    forall p, q :: 0 <= p < q < |hits| ==> Ahead(items, hits[p], hits[q])
  }

  lemma {:induction false} InsertKeepsOrder(items: seq<Candidate>, x: Hit, hits: seq<Hit>)
    requires x.index < |items| && InRange(items, hits) && Ranked(items, hits)
    requires forall p :: 0 <= p < |hits| ==> hits[p].index < x.index
    ensures Ranked(items, Insert(items, x, hits))
  {
    if hits == [] {
    } else if KeyBefore(items, hits[0], x) {
      forall p | 0 < p < |hits| ensures Ahead(items, x, hits[p]) {
        assert Ahead(items, hits[0], hits[p]);
        InsertsAhead(items, hits[0], hits[p], x);
      }
    } else {
      var rest := Insert(items, x, hits[1..]);
      InsertKeepsOrder(items, x, hits[1..]);
      forall h | h in rest ensures Ahead(items, hits[0], h) {
        assert h in multiset(rest);
        assert h == x || h in hits[1..];
      }
      assert forall q :: 0 <= q < |rest| ==> rest[q] in rest;
    }
  }

  lemma InsertsAhead(items: seq<Candidate>, first: Hit, h: Hit, x: Hit)
    requires first.index < |items| && h.index < |items| && x.index < |items|
    requires Ahead(items, first, h) && KeyBefore(items, first, x)
    ensures Ahead(items, x, h)
  {
    if KeyBefore(items, first, h) {
      KeyIsOneWay(items, first, h);
    } else {
      KeyOrder(items, first, h, x);
    }
  }

  lemma {:induction false} TextIsOneWay(a: string, b: string)
    requires TextBefore(a, b)
    ensures !TextBefore(b, a)
  {
    if a != "" && a[0] == b[0] {
      TextIsOneWay(a[1..], b[1..]);
    }
  }

  lemma KeyIsOneWay(items: seq<Candidate>, a: Hit, b: Hit)
    requires a.index < |items| && b.index < |items| && KeyBefore(items, a, b)
    ensures !KeyBefore(items, b, a)
  {
    if a.score == b.score {
      TextIsOneWay(items[a.index].partner, items[b.index].partner);
    }
  }

  lemma {:induction false} SortedIsRanked(items: seq<Candidate>, hits: seq<Hit>)
    requires InRange(items, hits) && Ascending(hits)
    ensures Ranked(items, Sorted(items, hits))
  {
    if hits != [] {
      var n := |hits| - 1;
      var before := Sorted(items, hits[..n]);
      SortedIsRanked(items, hits[..n]);
      forall p | 0 <= p < |before| ensures before[p].index < hits[n].index {
        assert before[p] in multiset(before);
        assert before[p] in hits[..n];
      }
      InsertKeepsOrder(items, hits[n], before);
    }
  }

  lemma SortedIsDescending(items: seq<Candidate>, hits: seq<Hit>)
    requires InRange(items, hits) && Ascending(hits)
    ensures Descending(Sorted(items, hits))
  {
    SortedIsRanked(items, hits);
    assert forall a: Hit, b: Hit :: a.index < |items| && b.index < |items| && Ahead(items, a, b) ==> a.score >= b.score;
  }

  // ---------- The decision ----------

  datatype Choice = Choice(
    name: string, phone: string, account: string, partner: string, country: string, source: Source, score: real)

  datatype Outcome =
    | Unchanged
    | NeedsSelection(choices: seq<Choice>)
    | Selected(candidate: Candidate)

  function ChoicesOf(outcome: Outcome): seq<Choice> {
    if outcome.NeedsSelection? then outcome.choices else []
  }

  function ExtraMissing(outcome: Outcome): seq<Name> {
    if outcome.NeedsSelection? then [BeneficiarySelection] else []
  }

  function ExactChoice(c: Candidate): Choice {
    Choice(c.name, c.phone, c.account, c.partner, c.country, c.source, 1.0)
  }

  function HitChoice(items: seq<Candidate>, hit: Hit): Choice
    requires hit.index < |items|
  {
    var c := items[hit.index];
    Choice(c.name, c.phone, "", c.partner, c.country, c.source, hit.score)
  }

  function HitChoices(items: seq<Candidate>, hits: seq<Hit>): seq<Choice>
    requires InRange(items, hits)
  {
    seq(|hits|, p requires 0 <= p < |hits| => HitChoice(items, hits[p]))
  }

  function FirstThree<T>(s: seq<T>): seq<T> {
    if |s| <= 3 then s else s[..3]
  }

  predicate ExactMatch(phone: string, partner: string, c: Candidate) {
    phone == c.phone && (partner == "" || Normalize(partner) == Normalize(c.partner))
  }

  function ExactMatches(phone: string, partner: string, items: seq<Candidate>): (exact: seq<nat>)
    ensures forall i: nat :: i in exact <==> i < |items| && ExactMatch(phone, partner, items[i])
    ensures forall p :: 0 <= p < |exact| ==> exact[p] < |items|
    ensures forall p, q :: 0 <= p < q < |exact| ==> exact[p] < exact[q]
  {
    if items == [] then []
    else
      var n := |items| - 1;
      ExactMatches(phone, partner, items[..n]) + if ExactMatch(phone, partner, items[n]) then [n] else []
  }

  predicate CloseAtTop(hits: seq<Hit>) {
    |hits| > 1 && hits[0].score - hits[1].score < MARGIN
  }

  function DecideByName(items: seq<Candidate>, scores: seq<real>): Outcome
    requires |scores| == |items|
  {
    var best := FirstMax(scores);
    var hits := Sorted(items, Hits(scores));
    if best < 0 || scores[best] < THRESHOLD then Unchanged
    else if CloseAtTop(hits) then
      NeedsSelection(HitChoices(items, FirstThree(hits)))
    else Selected(items[best])
  }

  function Phone(fields: Fields): string {
    Strip(Get(fields, RecipientPhone))
  }

  function Partner(fields: Fields): string {
    Strip(Get(fields, PartnerName))
  }

  function Decide(ratio: Ratio, fields: Fields, items: seq<Candidate>): Outcome {
    var name, phone, partner := Strip(Get(fields, RecipientName)), Phone(fields), Partner(fields);
    var exact := if phone == "" then [] else ExactMatches(phone, partner, items);
    if (name == "" && phone == "") || items == [] then Unchanged
    else if |exact| == 1 then Selected(items[exact[0]])
    else if |exact| > 1 then
      var shown := FirstThree(exact);
      NeedsSelection(seq(|shown|, p requires 0 <= p < |shown| => ExactChoice(items[shown[p]])))
    else if name == "" then Unchanged
    else DecideByName(items, Scores(ratio, name, partner, items))
  }

  lemma {:induction false} NoMatch(phone: string, partner: string, items: seq<Candidate>)
    requires forall j :: 0 <= j < |items| ==> !ExactMatch(phone, partner, items[j])
    ensures ExactMatches(phone, partner, items) == []
  {
    if items != [] {
      NoMatch(phone, partner, items[..|items| - 1]);
    }
  }

  lemma {:induction false} OnlyMatch(phone: string, partner: string, items: seq<Candidate>, i: nat)
    requires i < |items| && forall j :: 0 <= j < |items| ==> (ExactMatch(phone, partner, items[j]) <==> j == i)
    ensures ExactMatches(phone, partner, items) == [i]
  {
    if i == |items| - 1 {
      NoMatch(phone, partner, items[..i]);
    } else {
      OnlyMatch(phone, partner, items[..|items| - 1], i);
    }
  }

  /** A phone number decides before any name: the only candidate with it, and with the partner if
      one is given, is chosen. */
  lemma PhoneChooses(ratio: Ratio, fields: Fields, items: seq<Candidate>, i: nat)
    requires Phone(fields) != "" && i < |items|
    requires forall j :: 0 <= j < |items| ==> (ExactMatch(Phone(fields), Partner(fields), items[j]) <==> j == i)
    ensures Decide(ratio, fields, items) == Selected(items[i])
  {
    OnlyMatch(Phone(fields), Partner(fields), items, i);
  }

  /** Two candidates with the number leave the choice to the user. */
  lemma PhoneIsAmbiguous(ratio: Ratio, fields: Fields, items: seq<Candidate>, i: nat, j: nat)
    requires Phone(fields) != "" && i < j < |items|
    requires ExactMatch(Phone(fields), Partner(fields), items[i])
      && ExactMatch(Phone(fields), Partner(fields), items[j])
    ensures Decide(ratio, fields, items).NeedsSelection?
  {
    var exact := ExactMatches(Phone(fields), Partner(fields), items);
    assert i in exact && j in exact;
  }

  /** A number no candidate has leaves it to the name. */
  lemma UnknownPhoneFallsBack(ratio: Ratio, fields: Fields, items: seq<Candidate>)
    requires Phone(fields) != "" && items != [] && Strip(Get(fields, RecipientName)) != ""
    requires forall j :: 0 <= j < |items| ==> !ExactMatch(Phone(fields), Partner(fields), items[j])
    ensures Decide(ratio, fields, items)
      == DecideByName(items, Scores(ratio, Strip(Get(fields, RecipientName)), Partner(fields), items))
  {
    NoMatch(Phone(fields), Partner(fields), items);
  }

  // ---------- What the margin test means ----------

  /** Candidate `i` reaches the threshold and is within the margin of `best`, in rounded score. */
  predicate Rival(scores: seq<real>, best: nat, i: nat)
    requires best < |scores| && i < |scores|
  {
    i != best && scores[i] >= THRESHOLD && ToMillis(scores[best]) - ToMillis(scores[i]) < MARGIN
  }

  lemma MillisAreMonotone(x: real, y: real)
    requires x <= y
    ensures ToMillis(x) <= ToMillis(y)
  {
    RoundIsMonotone(x * 1000.0, y * 1000.0);
  }

  lemma PositionOf(hits: seq<Hit>, items: seq<Candidate>, h: Hit) returns (p: nat)
    requires InRange(items, hits) && h in hits
    ensures p < |hits| && Sorted(items, hits)[p] == h
  {
    assert h in multiset(hits);
    assert h in Sorted(items, hits);
    p :| 0 <= p < |hits| && Sorted(items, hits)[p] == h;
  }

  lemma DistinctAfterSort(items: seq<Candidate>, hits: seq<Hit>)
    requires InRange(items, hits)
    requires forall p, q :: 0 <= p < q < |hits| ==> hits[p] != hits[q]
    ensures |hits| > 1 ==> Sorted(items, hits)[0] != Sorted(items, hits)[1]
  {
    if |hits| > 1 && Sorted(items, hits)[0] == Sorted(items, hits)[1] {
      var r, h := Sorted(items, hits), Sorted(items, hits)[0];
      assert r == [h, h] + r[2..];
      assert multiset(r)[h] >= 2;
      OnceInDistinct(hits, h);
    }
  }

  lemma {:induction false} OnceInDistinct(hits: seq<Hit>, h: Hit)
    requires forall p, q :: 0 <= p < q < |hits| ==> hits[p] != hits[q]
    ensures multiset(hits)[h] <= 1
  {
    if hits != [] {
      assert hits == [hits[0]] + hits[1..];
      OnceInDistinct(hits[1..], h);
    }
  }

  /** The highest hit scores as the best candidate does. */
  lemma TopHit(items: seq<Candidate>, scores: seq<real>) returns (t: nat)
    requires |scores| == |items| && FirstMax(scores) >= 0 && scores[FirstMax(scores)] >= THRESHOLD
    ensures var hits := Sorted(items, Hits(scores));
      t < |hits| && hits[t] == Hit(FirstMax(scores), hits[0].score)
      && hits[0].score == ToMillis(scores[FirstMax(scores)])
  {
    var best, raw := FirstMax(scores), Hits(scores);
    var hits := Sorted(items, raw);
    FirstMaxIsFirstMaximum(scores);
    HitsAscend(scores);
    SortedIsDescending(items, raw);
    t := PositionOf(raw, items, Hit(best, ToMillis(scores[best])));
    assert hits[0] in multiset(hits);
    MillisAreMonotone(scores[hits[0].index], scores[best]);
  }

  predicate HasRival(scores: seq<real>, best: nat)
    requires best < |scores|
  {
    exists i :: 0 <= i < |scores| && Rival(scores, best, i)
  }

  /** Two hits at different places of a descending list: the second place is at least the lower one. */
  lemma SecondIsAtLeast(hits: seq<Hit>, t: nat, u: nat)
    requires Descending(hits) && t < |hits| && u < |hits| && t != u
    ensures |hits| > 1 && hits[1].score >= (if t > u then hits[t].score else hits[u].score)
  {
  }

  lemma RivalIsCloseAtTop(items: seq<Candidate>, scores: seq<real>, i: nat)
    requires |scores| == |items| && FirstMax(scores) >= 0 && scores[FirstMax(scores)] >= THRESHOLD
    requires i < |items| && Rival(scores, FirstMax(scores), i)
    ensures CloseAtTop(Sorted(items, Hits(scores)))
  {
    var raw, low := Hits(scores), ToMillis(scores[i]);
    var t := TopHit(items, scores);
    var u := PositionOf(raw, items, Hit(i, low));
    HitsAscend(scores);
    SortedIsDescending(items, raw);
    SecondIsAtLeast(Sorted(items, raw), t, u);
  }

  lemma CloseAtTopIsRival(items: seq<Candidate>, scores: seq<real>)
    requires |scores| == |items| && FirstMax(scores) >= 0 && scores[FirstMax(scores)] >= THRESHOLD
    requires CloseAtTop(Sorted(items, Hits(scores)))
    ensures HasRival(scores, FirstMax(scores))
  {
    var raw, best := Hits(scores), FirstMax(scores);
    var hits := Sorted(items, raw);
    var t := TopHit(items, scores);
    DistinctAfterSort(items, raw);
    assert hits[0] in multiset(hits) && hits[1] in multiset(hits);
    assert hits[0] in raw && hits[1] in raw;
    var other := if hits[0].index == best then hits[1] else hits[0];
    assert other.index != best && other.score == ToMillis(scores[other.index]);
    assert Rival(scores, best, other.index);
  }

  /** The three ways a match by name ends, told without the list of hits. */
  lemma DecideByNameIsExact(items: seq<Candidate>, scores: seq<real>)
    requires |scores| == |items|
    ensures var best, outcome := FirstMax(scores), DecideByName(items, scores);
      var found := exists i :: 0 <= i < |items| && scores[i] >= THRESHOLD;
      && (found ==> best >= 0)
      && (outcome.Unchanged? <==> !found)
      && (outcome.NeedsSelection? <==> found && HasRival(scores, best))
      && (outcome.Selected? <==> found && !HasRival(scores, best))
      && (outcome.Selected? ==> outcome.candidate == items[best])
  {
    var best := FirstMax(scores);
    FirstMaxIsFirstMaximum(scores);
    if best >= 0 && scores[best] >= THRESHOLD {
      if CloseAtTop(Sorted(items, Hits(scores))) {
        CloseAtTopIsRival(items, scores);
      } else if i :| 0 <= i < |items| && Rival(scores, best, i) {
        RivalIsCloseAtTop(items, scores, i);
      }
    }
  }

  /** A beneficiary chosen by name is the first candidate of maximal score, reaches the
      threshold, and beats every other candidate that does by the margin in rounded score,
      hence by 0.079 before rounding. */
  lemma SelectionMargin(items: seq<Candidate>, scores: seq<real>)
    requires |scores| == |items| && DecideByName(items, scores).Selected?
    ensures var best := FirstMax(scores);
      && best >= 0 && DecideByName(items, scores) == Selected(items[best])
      && scores[best] >= THRESHOLD
      && (forall i :: 0 <= i < best ==> scores[i] < scores[best])
      && (forall i :: 0 <= i < |items| ==> scores[i] <= scores[best])
      && (forall i :: 0 <= i < |items| && i != best && scores[i] >= THRESHOLD ==>
        ToMillis(scores[best]) - ToMillis(scores[i]) >= MARGIN && scores[best] - scores[i] >= 0.079)
  {
    DecideByNameIsExact(items, scores);
    FirstMaxIsFirstMaximum(scores);
    var best := FirstMax(scores);
    forall i | 0 <= i < |items| && i != best && scores[i] >= THRESHOLD
      ensures ToMillis(scores[best]) - ToMillis(scores[i]) >= MARGIN && scores[best] - scores[i] >= 0.079
    {
      assert !Rival(scores, best, i);
      RoundIsNearest(scores[best] * 1000.0);
      RoundIsNearest(scores[i] * 1000.0);
    }
  }

  // ---------- The payload ----------

  function SourceText(source: Source): (text: string)
    ensures text != ""
  {
    match source
    case SavedBeneficiary => "saved_beneficiary"
    case TransferHistory => "transfer_history"
  }

  /** The five fields a known beneficiary can supply. */
  function Supplied(c: Candidate, key: Name): string {
    match key
    case RecipientName => c.name
    case RecipientPhone => c.phone
    case AccountRef => c.account
    case PartnerName => c.partner
    case CountryDestination => c.country
    case _ => ""
  }

  const SUPPLIABLE: set<Name> := {RecipientName, RecipientPhone, AccountRef, PartnerName, CountryDestination}

  /** The payload with its empty fields among `keys` filled from a known beneficiary. */
  function SupplementIn(fields: Fields, c: Candidate, keys: set<Name>): Fields {
    map k | k in fields.Keys + keys && (k in fields || Supplied(c, k) != "") ::
      if k in fields && (fields[k] != "" || k !in keys) then fields[k] else Supplied(c, k)
  }

  function Supplement(fields: Fields, c: Candidate): (filled: Fields)
    ensures forall k :: Get(filled, k) == if Get(fields, k) != "" then Get(fields, k) else Supplied(c, k)
  {
    SupplementIn(fields, c, SUPPLIABLE)
  }

  function Completed(fields: Fields, c: Candidate): (filled: Fields)
    ensures forall k :: k != MatchSource && k != MatchName ==>
      Get(filled, k) == if Get(fields, k) != "" then Get(fields, k) else Supplied(c, k)
  {
    Supplement(fields, c)[MatchSource := SourceText(c.source)][MatchName := c.name]
  }

  function Resolved(fields: Fields, outcome: Outcome): Fields {
    if outcome.Selected? then Completed(fields, outcome.candidate) else fields
  }

  /** The whole search, as a function of the payload and the rows read. */
  function SearchWith(ratio: Ratio): (Fields, seq<Row>) -> Outcome {
    (fields: Fields, rows: seq<Row>) => Decide(ratio, fields, Candidates(rows))
  }

  /** Resolution never changes a field that was filled, and only the chosen candidate fills one. */
  lemma OnlyEmptyFieldsChange(fields: Fields, outcome: Outcome, k: Name)
    requires k != MatchSource && k != MatchName
    ensures Get(fields, k) != "" ==> Get(Resolved(fields, outcome), k) == Get(fields, k)
    ensures Get(Resolved(fields, outcome), k) != Get(fields, k) ==>
      outcome.Selected? && Get(Resolved(fields, outcome), k) == Supplied(outcome.candidate, k)
  {
  }

  method MatchByPhone(phone: string, partner: string, items: seq<Candidate>) returns (exact: seq<nat>)
    ensures exact == ExactMatches(phone, partner, items)
  {
    exact := [];
    for i := 0 to |items|
      invariant exact == ExactMatches(phone, partner, items[..i])
    {
      assert items[..i + 1][..i] == items[..i];
      if phone == items[i].phone {
        if partner == "" || Normalize(partner) == Normalize(items[i].partner) {
          exact := exact + [i];
        }
      }
    }
    assert items[..|items|] == items;
  }

  method ScoreCandidate(ratio: Ratio, name: string, partner: string, item: Candidate) returns (score: real)
    ensures score == Score(ratio, name, partner, item)
  {
    score := MatchScore(ratio, name, item.name);
    if partner != "" && Normalize(partner) == Normalize(item.partner) {
      score := score + 0.1;
    }
  }

  method MatchByName(ratio: Ratio, name: string, partner: string, items: seq<Candidate>)
    returns (best: int, bestScore: real, ambiguous: seq<Hit>)
    ensures var scores := Scores(ratio, name, partner, items);
      best == FirstMax(scores) && bestScore == BestScore(scores, best) && ambiguous == Hits(scores)
  {
    best, bestScore, ambiguous := -1, 0.0, [];
    ghost var scores := Scores(ratio, name, partner, items);
    for i := 0 to |items|
      invariant best == FirstMax(scores[..i])
      invariant bestScore == BestScore(scores[..i], best)
      invariant ambiguous == Hits(scores[..i])
    {
      assert scores[..i + 1][..i] == scores[..i];
      var score := ScoreCandidate(ratio, name, partner, items[i]);
      assert score == scores[..i + 1][i];
      if score > bestScore {
        best, bestScore := i, score;
      }
      if score >= THRESHOLD {
        ambiguous := ambiguous + [Hit(i, ToMillis(score))];
      }
    }
    assert scores[..|items|] == scores;
  }

  /** Fills one more key, if it is empty and the beneficiary has it. */
  method FillFrom(ghost fields: Fields, item: Candidate, current: Fields, ghost keys: set<Name>, key: Name)
    returns (next: Fields)
    requires current == SupplementIn(fields, item, keys) && key !in keys
    ensures next == SupplementIn(fields, item, keys + {key})
  {
    next := current;
    var value := Supplied(item, key);
    if Get(current, key) == "" && value != "" {
      next := next[key := value];
    }
  }

  method Complete(fields: Fields, item: Candidate) returns (resolved: Fields)
    ensures resolved == Completed(fields, item)
  {
    ghost var keys: set<Name> := {};
    resolved := fields;
    assert resolved == SupplementIn(fields, item, {});
    resolved := FillFrom(fields, item, resolved, keys, RecipientName);
    keys := keys + {RecipientName};
    resolved := FillFrom(fields, item, resolved, keys, RecipientPhone);
    keys := keys + {RecipientPhone};
    resolved := FillFrom(fields, item, resolved, keys, AccountRef);
    keys := keys + {AccountRef};
    resolved := FillFrom(fields, item, resolved, keys, PartnerName);
    keys := keys + {PartnerName};
    resolved := FillFrom(fields, item, resolved, keys, CountryDestination);
    keys := keys + {CountryDestination};
    assert keys == SUPPLIABLE;
    resolved := resolved[MatchSource := SourceText(item.source)];
    resolved := resolved[MatchName := item.name];
  }

  method ChooseByName(ratio: Ratio, name: string, partner: string, items: seq<Candidate>) returns (outcome: Outcome)
    ensures outcome == DecideByName(items, Scores(ratio, name, partner, items))
  {
    var best, bestScore, ambiguous := MatchByName(ratio, name, partner, items);
    if best < 0 || bestScore < THRESHOLD {
      return Unchanged;
    }
    if |ambiguous| > 1 {
      var sorted := Sorted(items, ambiguous);
      if sorted[0].score - sorted[1].score < MARGIN {
        var shown := FirstThree(sorted);
        return NeedsSelection(HitChoices(items, shown));
      }
    }
    outcome := Selected(items[best]);
  }

  method Choose(ratio: Ratio, fields: Fields, items: seq<Candidate>) returns (outcome: Outcome)
    ensures outcome == Decide(ratio, fields, items)
  {
    var name, phone, partner := Strip(Get(fields, RecipientName)), Phone(fields), Partner(fields);
    if (name == "" && phone == "") || items == [] {
      return Unchanged;
    }
    if phone != "" {
      var exact := MatchByPhone(phone, partner, items);
      if |exact| == 1 {
        return Selected(items[exact[0]]);
      } else if |exact| > 1 {
        var shown := FirstThree(exact);
        return NeedsSelection(seq(|shown|, p requires 0 <= p < |shown| => ExactChoice(items[shown[p]])));
      }
    }
    if name == "" {
      return Unchanged;
    }
    outcome := ChooseByName(ratio, name, partner, items);
  }

  /** `rows` are the saved beneficiaries followed by the past transfers. */
  method ResolveTransferBeneficiary(ratio: Ratio, fields: Fields, rows: seq<Row>)
    returns (resolved: Fields, choices: seq<Choice>, warned: bool, extraMissing: seq<Name>)
    ensures var outcome := SearchWith(ratio)(fields, rows);
      && resolved == Resolved(fields, outcome)
      && choices == ChoicesOf(outcome)
      && (warned <==> !outcome.Unchanged?)
      && extraMissing == ExtraMissing(outcome)
  {
    var items := LoadCandidates(rows);
    var outcome := Choose(ratio, fields, items);
    resolved := fields;
    if outcome.Selected? {
      resolved := Complete(fields, outcome.candidate);
    }
    choices, warned, extraMissing := ChoicesOf(outcome), !outcome.Unchanged?, ExtraMissing(outcome);
  }
}
