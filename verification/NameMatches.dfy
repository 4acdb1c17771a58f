/** Which beneficiary is meant, told from the names, partners and numbers themselves, and what the choice
    puts into the payload. */
module NameMatches {
  import opened Beneficiaries
  import opened FirstMaximum
  import opened Rounding
  import opened Slots
  import opened Text

  /** A similarity lies between 0 and 1. */
  ghost predicate Bounded(ratio: Ratio) {
    forall a, b :: 0.0 <= ratio(a, b) <= 1.0
  }

  function Asked(fields: Fields): string {
    Strip(Get(fields, RecipientName))
  }

  /** The candidate has the number asked for, at the partner asked for, if one is. */
  ghost predicate HasNumber(fields: Fields, c: Candidate) {
    var phone, partner := Strip(Get(fields, RecipientPhone)), Strip(Get(fields, PartnerName));
    phone != "" && c.phone == phone && (partner == "" || Normalize(c.partner) == Normalize(partner))
  }

  ghost predicate NoNumber(fields: Fields, items: seq<Candidate>) {
    forall j :: 0 <= j < |items| ==> !HasNumber(fields, items[j])
  }

  ghost predicate SameName(name: string, c: Candidate) {
    Normalize(c.name) == Normalize(name) != ""
  }

  /** One name contains the other. */
  ghost predicate Related(name: string, c: Candidate) {
    var n, q := Normalize(c.name), Normalize(name);
    n != "" && q != "" && (Contains(n, q) || Contains(q, n))
  }

  /** The names differ, neither contains the other, and their similarity is at most `limit`. */
  ghost predicate Unlike(ratio: Ratio, name: string, c: Candidate, limit: real) {
    Normalize(c.name) == ""
    || (!SameName(name, c) && !Related(name, c) && ratio(Normalize(name), Normalize(c.name)) <= limit)
  }

  // ---------- By number ----------

  lemma HasNumberIsExactMatch(fields: Fields, c: Candidate)
    requires Strip(Get(fields, RecipientPhone)) != ""
    ensures HasNumber(fields, c) <==> ExactMatch(Phone(fields), Partner(fields), c)
  {
  }

  /** The only candidate with the number is chosen, whatever the names. */
  lemma NumberIsChosen(ratio: Ratio, fields: Fields, items: seq<Candidate>, i: nat)
    requires i < |items| && forall j :: 0 <= j < |items| ==> (HasNumber(fields, items[j]) <==> j == i)
    ensures Decide(ratio, fields, items) == Selected(items[i])
  {
    assert HasNumber(fields, items[i]);
    forall j | 0 <= j < |items|
      ensures ExactMatch(Phone(fields), Partner(fields), items[j]) <==> j == i
    {
      HasNumberIsExactMatch(fields, items[j]);
    }
    PhoneChooses(ratio, fields, items, i);
  }

  /** The choice offers `c` as it is, with `score`. */
  ghost predicate Offers(choice: Choice, c: Candidate, account: string, score: real) {
    choice == Choice(c.name, c.phone, account, c.partner, c.country, c.source, score)
  }

  ghost predicate OffersNumber(choice: Choice, fields: Fields, items: seq<Candidate>) {
    exists k :: 0 <= k < |items| && HasNumber(fields, items[k]) && Offers(choice, items[k], items[k].account, 1.0)
  }

  lemma NumberChoice(ratio: Ratio, fields: Fields, items: seq<Candidate>, p: nat)
    requires Strip(Get(fields, RecipientPhone)) != "" && Decide(ratio, fields, items).NeedsSelection?
    requires var exact := ExactMatches(Phone(fields), Partner(fields), items);
      |exact| > 1 && p < |FirstThree(exact)|
    ensures p < |Decide(ratio, fields, items).choices|
    ensures OffersNumber(Decide(ratio, fields, items).choices[p], fields, items)
  {
    var exact := ExactMatches(Phone(fields), Partner(fields), items);
    var k := FirstThree(exact)[p];
    assert k == exact[p] && k in exact;
    HasNumberIsExactMatch(fields, items[k]);
    assert Decide(ratio, fields, items).choices[p] == ExactChoice(items[k]);
    assert Offers(Decide(ratio, fields, items).choices[p], items[k], items[k].account, 1.0);
  }

  /** Several candidates with the number are offered, three at most, all with the score 1. */
  lemma NumbersAreOffered(ratio: Ratio, fields: Fields, items: seq<Candidate>, i: nat, j: nat)
    requires i < j < |items| && HasNumber(fields, items[i]) && HasNumber(fields, items[j])
    ensures var outcome := Decide(ratio, fields, items);
      && outcome.NeedsSelection? && 2 <= |outcome.choices| <= 3
      && forall p :: 0 <= p < |outcome.choices| ==> OffersNumber(outcome.choices[p], fields, items)
  {
    var outcome := Decide(ratio, fields, items);
    var exact := ExactMatches(Phone(fields), Partner(fields), items);
    HasNumberIsExactMatch(fields, items[i]);
    HasNumberIsExactMatch(fields, items[j]);
    PhoneIsAmbiguous(ratio, fields, items, i, j);
    assert i in exact && j in exact;
    TwoPlaces(exact, i, j);
    forall p | 0 <= p < |outcome.choices| ensures OffersNumber(outcome.choices[p], fields, items) {
      NumberChoice(ratio, fields, items, p);
    }
  }

  lemma TwoPlaces(s: seq<nat>, x: nat, y: nat)
    requires x in s && y in s && x != y
    ensures |s| >= 2
  {
  }

  // ---------- By name ----------

  lemma ScoreIsAtMost(ratio: Ratio, name: string, partner: string, c: Candidate, limit: real)
    requires Bounded(ratio) && 0.0 <= limit && Unlike(ratio, name, c, limit)
    ensures Score(ratio, name, partner, c) <= limit + 0.1
    ensures partner == "" || Normalize(c.partner) != Normalize(partner) ==> Score(ratio, name, partner, c) <= limit
  {
  }

  lemma ScoreOfOthers(ratio: Ratio, name: string, partner: string, c: Candidate)
    requires Bounded(ratio) && (partner == "" || Normalize(c.partner) != Normalize(partner))
    ensures Score(ratio, name, partner, c) <= 1.0
  {
  }

  lemma FallsToName(ratio: Ratio, fields: Fields, items: seq<Candidate>)
    requires items != [] && Asked(fields) != "" && NoNumber(fields, items)
    ensures Decide(ratio, fields, items)
      == DecideByName(items, Scores(ratio, Asked(fields), Strip(Get(fields, PartnerName)), items))
  {
    if Phone(fields) != "" {
      forall j | 0 <= j < |items| ensures !ExactMatch(Phone(fields), Partner(fields), items[j]) {
        HasNumberIsExactMatch(fields, items[j]);
      }
      UnknownPhoneFallsBack(ratio, fields, items);
    }
  }

  /** A score that leads every other by a tenth decides. */
  lemma ClearLeadDecides(items: seq<Candidate>, scores: seq<real>, i: nat)
    requires |scores| == |items| && i < |items| && scores[i] >= 0.72
    requires forall j :: 0 <= j < |items| && j != i ==> scores[j] <= scores[i] - 0.1
    ensures DecideByName(items, scores) == Selected(items[i])
  {
    FirstMaxIs(scores, i);
    DecideByNameIsExact(items, scores);
    forall j | 0 <= j < |items| ensures !Rival(scores, i, j) {
      if j != i {
        LeadStands(scores[i], scores[j]);
      }
    }
  }

  lemma LeadStands(x: real, y: real)
    requires y <= x - 0.1
    ensures ToMillis(x) - ToMillis(y) >= 0.08
  {
    RoundIsNearest(x * 1000.0);
    RoundIsNearest(y * 1000.0);
  }

  /** A partner's own candidate with the very name asked for is chosen when the partner has no other of
      a like name, whoever else has that name at other partners. */
  lemma NamedPartnerIsChosen(ratio: Ratio, fields: Fields, items: seq<Candidate>, i: nat)
    requires Bounded(ratio) && i < |items| && NoNumber(fields, items)
    requires var partner := Strip(Get(fields, PartnerName));
      && partner != "" && Asked(fields) != ""
      && SameName(Asked(fields), items[i]) && Normalize(items[i].partner) == Normalize(partner)
      && forall j :: 0 <= j < |items| && j != i && Normalize(items[j].partner) == Normalize(partner) ==>
           Unlike(ratio, Asked(fields), items[j], 0.9)
    ensures Decide(ratio, fields, items) == Selected(items[i])
  {
    var name, partner := Asked(fields), Strip(Get(fields, PartnerName));
    var scores := Scores(ratio, name, partner, items);
    FallsToName(ratio, fields, items);
    assert scores[i] == 1.1;
    forall j | 0 <= j < |items| && j != i ensures scores[j] <= 1.0 {
      if Normalize(items[j].partner) == Normalize(partner) {
        ScoreIsAtMost(ratio, name, partner, items[j], 0.9);
      } else {
        ScoreOfOthers(ratio, name, partner, items[j]);
      }
    }
    ClearLeadDecides(items, scores, i);
  }

  /** Without a partner, the very name is chosen when no other is like it. */
  lemma ExactNameIsChosen(ratio: Ratio, fields: Fields, items: seq<Candidate>, i: nat)
    requires Bounded(ratio) && i < |items| && NoNumber(fields, items)
    requires Strip(Get(fields, PartnerName)) == "" && Asked(fields) != "" && SameName(Asked(fields), items[i])
    requires forall j :: 0 <= j < |items| && j != i ==> Unlike(ratio, Asked(fields), items[j], 0.9)
    ensures Decide(ratio, fields, items) == Selected(items[i])
  {
    var scores := Scores(ratio, Asked(fields), "", items);
    FallsToName(ratio, fields, items);
    assert scores[i] == 1.0;
    forall j | 0 <= j < |items| && j != i ensures scores[j] <= 0.9 {
      ScoreIsAtMost(ratio, Asked(fields), "", items[j], 0.9);
    }
    ClearLeadDecides(items, scores, i);
  }

  /** A name that is only like a candidate's, at 0.72 or more, is taken for it when it is clearly less like
      all others; a name that contains or is contained counts as 0.96. */
  lemma LikeNameIsChosen(ratio: Ratio, fields: Fields, items: seq<Candidate>, i: nat, likeness: real)
    requires Bounded(ratio) && i < |items| && NoNumber(fields, items)
    requires Strip(Get(fields, PartnerName)) == "" && Asked(fields) != "" && likeness >= 0.72
    requires !SameName(Asked(fields), items[i])
    requires var q, n := Normalize(Asked(fields)), Normalize(items[i].name);
      q != "" && n != "" && likeness == if Contains(n, q) || Contains(q, n) then 0.96 else ratio(q, n)
    requires forall j :: 0 <= j < |items| && j != i ==> Unlike(ratio, Asked(fields), items[j], likeness - 0.1)
    ensures Decide(ratio, fields, items) == Selected(items[i])
  {
    var scores := Scores(ratio, Asked(fields), "", items);
    FallsToName(ratio, fields, items);
    assert scores[i] == likeness;
    forall j | 0 <= j < |items| && j != i ensures scores[j] <= likeness - 0.1 {
      ScoreIsAtMost(ratio, Asked(fields), "", items[j], likeness - 0.1);
    }
    ClearLeadDecides(items, scores, i);
  }

  /** A name that resembles no candidate's leaves the payload as it is. */
  lemma StrangerIsNotFound(ratio: Ratio, fields: Fields, items: seq<Candidate>)
    requires Bounded(ratio) && NoNumber(fields, items)
    requires var limit := if Strip(Get(fields, PartnerName)) == "" then 0.71 else 0.61;
      forall j :: 0 <= j < |items| ==> Unlike(ratio, Asked(fields), items[j], limit)
    ensures Decide(ratio, fields, items) == Unchanged
    ensures Resolved(fields, Decide(ratio, fields, items)) == fields
  {
    var name, partner := Asked(fields), Strip(Get(fields, PartnerName));
    if items != [] && name != "" {
      var scores := Scores(ratio, name, partner, items);
      FallsToName(ratio, fields, items);
      forall j | 0 <= j < |items| ensures scores[j] < 0.72 {
        ScoreIsAtMost(ratio, name, partner, items[j], if partner == "" then 0.71 else 0.61);
      }
      DecideByNameIsExact(items, scores);
    } else if items != [] {
      NoNumberNoName(ratio, fields, items);
    }
  }

  /** Neither does a payload without a name whose number nobody has. */
  lemma NoNumberNoName(ratio: Ratio, fields: Fields, items: seq<Candidate>)
    requires Asked(fields) == "" && NoNumber(fields, items)
    ensures Decide(ratio, fields, items) == Unchanged
  {
    if Phone(fields) != "" {
      forall j | 0 <= j < |items| ensures !ExactMatch(Phone(fields), Partner(fields), items[j]) {
        HasNumberIsExactMatch(fields, items[j]);
      }
      NoMatch(Phone(fields), Partner(fields), items);
    }
  }

  /** Two candidates of like names, both at the partner asked for or no partner asked for, are too close
      to choose between when one has the very name and the other the same or a related one. */
  lemma NamesakesAreOffered(ratio: Ratio, fields: Fields, items: seq<Candidate>, i: nat, j: nat)
    requires Bounded(ratio) && i < |items| && j < |items| && i != j && NoNumber(fields, items)
    requires var partner := Strip(Get(fields, PartnerName));
      && Asked(fields) != "" && SameName(Asked(fields), items[i])
      && (SameName(Asked(fields), items[j]) || Related(Asked(fields), items[j]))
      && (partner != "" ==> Normalize(items[i].partner) == Normalize(items[j].partner) == Normalize(partner))
    ensures Decide(ratio, fields, items).NeedsSelection?
  {
    var name, partner := Asked(fields), Strip(Get(fields, PartnerName));
    var scores := Scores(ratio, name, partner, items);
    var bonus := if partner == "" then 0.0 else 0.1;
    FallsToName(ratio, fields, items);
    assert scores[i] == 1.0 + bonus && scores[j] >= 0.96 + bonus;
    forall k | 0 <= k < |items| ensures scores[k] <= scores[i] {
      ScoreOfAny(ratio, name, partner, items[k]);
    }
    FirstMaxIsFirstMaximum(scores);
    DecideByNameIsExact(items, scores);
    var best := FirstMax(scores);
    var other := if best == i then j else i;
    CloseScores(scores[best], scores[other], bonus);
    assert Rival(scores, best, other);
  }

  lemma ScoreOfAny(ratio: Ratio, name: string, partner: string, c: Candidate)
    requires Bounded(ratio)
    ensures Score(ratio, name, partner, c) <= 1.0 + if partner == "" then 0.0 else 0.1
  {
  }

  lemma CloseScores(x: real, y: real, bonus: real)
    requires bonus in {0.0, 0.1} && 0.96 + bonus <= y <= x <= 1.0 + bonus
    ensures ToMillis(x) - ToMillis(y) < 0.08
  {
    RoundIsNearest(x * 1000.0);
    RoundIsNearest(y * 1000.0);
  }

  ghost predicate OffersHit(choice: Choice, items: seq<Candidate>, scores: seq<real>)
    requires |scores| == |items|
  {
    exists k :: 0 <= k < |items| && scores[k] >= 0.72 && Offers(choice, items[k], "", ToMillis(scores[k]))
  }

  lemma HitIsOffered(items: seq<Candidate>, scores: seq<real>, h: Hit)
    requires |scores| == |items| && h in Hits(scores)
    ensures OffersHit(HitChoice(items, h), items, scores)
  {
    assert Offers(HitChoice(items, h), items[h.index], "", ToMillis(scores[h.index]));
  }

  lemma SortedHit(items: seq<Candidate>, hits: seq<Hit>, p: nat)
    requires InRange(items, hits) && p < |hits|
    ensures Sorted(items, hits)[p] in hits
  {
    assert Sorted(items, hits)[p] in multiset(Sorted(items, hits));
  }

  lemma TopScore(items: seq<Candidate>, scores: seq<real>, k: nat)
    requires |scores| == |items| && DecideByName(items, scores).NeedsSelection? && k < |items|
    ensures ToMillis(scores[k]) <= DecideByName(items, scores).choices[0].score
  {
    var t := TopHit(items, scores);
    FirstMaxIsFirstMaximum(scores);
    MillisAreMonotone(scores[k], scores[FirstMax(scores)]);
  }

  lemma NameChoice(items: seq<Candidate>, scores: seq<real>, p: nat)
    requires |scores| == |items| && DecideByName(items, scores).NeedsSelection?
    requires p < |DecideByName(items, scores).choices|
    ensures OffersHit(DecideByName(items, scores).choices[p], items, scores)
  {
    var hits := Sorted(items, Hits(scores));
    SortedHit(items, Hits(scores), p);
    HitIsOffered(items, scores, hits[p]);
  }

  lemma ChoicesDescend(items: seq<Candidate>, scores: seq<real>)
    requires |scores| == |items| && DecideByName(items, scores).NeedsSelection?
    ensures var choices := DecideByName(items, scores).choices;
      forall p, q :: 0 <= p < q < |choices| ==> choices[p].score >= choices[q].score
  {
    HitsAscend(scores);
    SortedIsDescending(items, Hits(scores));
  }

  /** When names are too close, two or three candidates are offered, best first: each reaches 0.72, and
      the first has the greatest score. */
  lemma NamesAreOffered(items: seq<Candidate>, scores: seq<real>)
    requires |scores| == |items| && DecideByName(items, scores).NeedsSelection?
    ensures var choices := DecideByName(items, scores).choices;
      && 2 <= |choices| <= 3
      && (forall p :: 0 <= p < |choices| ==> OffersHit(choices[p], items, scores))
      && (forall p, q :: 0 <= p < q < |choices| ==> choices[p].score >= choices[q].score)
      && (forall k :: 0 <= k < |items| ==> ToMillis(scores[k]) <= choices[0].score)
  {
    var choices := DecideByName(items, scores).choices;
    ChoicesDescend(items, scores);
    forall k | 0 <= k < |items| ensures ToMillis(scores[k]) <= choices[0].score {
      TopScore(items, scores, k);
    }
    forall p | 0 <= p < |choices| ensures OffersHit(choices[p], items, scores) {
      NameChoice(items, scores, p);
    }
  }

  /** `a` is the beginning of `b`, or smaller where they first differ. */
  ghost predicate Precedes(a: string, b: string) {
    exists k: nat :: DiffersAt(a, b, k)
  }

  ghost predicate DiffersAt(a: string, b: string, k: nat) {
    k < |b| && k <= |a| && a[..k] == b[..k] && (k == |a| || a[k] < b[k])
  }

  lemma {:induction false} TextBeforeIsPrecedes(a: string, b: string)
    ensures TextBefore(a, b) <==> Precedes(a, b)
  {
    if b == "" {
    } else if a == "" || a[0] < b[0] {
      assert DiffersAt(a, b, 0);
    } else if a[0] == b[0] {
      TextBeforeIsPrecedes(a[1..], b[1..]);
      if k: nat :| DiffersAt(a[1..], b[1..], k) {
        assert a[..k + 1] == [a[0]] + a[1..][..k] && b[..k + 1] == [b[0]] + b[1..][..k];
        assert DiffersAt(a, b, k + 1);
      }
      if k: nat :| DiffersAt(a, b, k) {
        assert k > 0;
        assert a[1..][..k - 1] == a[..k][1..] && b[1..][..k - 1] == b[..k][1..];
        assert DiffersAt(a[1..], b[1..], k - 1);
      }
    } else {
      assert forall k: nat :: DiffersAt(a, b, k) && k > 0 ==> a[0] == a[..k][0] == b[..k][0] == b[0];
    }
  }

  lemma AheadByPartner(items: seq<Candidate>, a: Hit, b: Hit)
    requires a.index < |items| && b.index < |items| && Ahead(items, a, b)
    ensures a.score == b.score ==> !Precedes(items[a.index].partner, items[b.index].partner)
  {
    if KeyBefore(items, b, a) {
      KeyIsOneWay(items, b, a);
    }
    TextBeforeIsPrecedes(items[a.index].partner, items[b.index].partner);
  }

  lemma SortedFollowsPartners(items: seq<Candidate>, scores: seq<real>, p: nat, q: nat)
    requires |scores| == |items| && p < q < |Hits(scores)|
    ensures var a, b := Sorted(items, Hits(scores))[p], Sorted(items, Hits(scores))[q];
      a.score == b.score ==> !Precedes(items[a.index].partner, items[b.index].partner)
  {
    HitsAscend(scores);
    SortedIsRanked(items, Hits(scores));
    AheadByPartner(items, Sorted(items, Hits(scores))[p], Sorted(items, Hits(scores))[q]);
  }

  lemma ChoiceOf(items: seq<Candidate>, scores: seq<real>, p: nat)
    requires |scores| == |items| && DecideByName(items, scores).NeedsSelection?
    requires p < |DecideByName(items, scores).choices|
    ensures p < |Hits(scores)|
    ensures DecideByName(items, scores).choices[p] == HitChoice(items, Sorted(items, Hits(scores))[p])
  {
  }

  /** Candidates of one rounded score are offered in descending order of their partner. */
  lemma TiesFollowPartners(items: seq<Candidate>, scores: seq<real>, p: nat, q: nat)
    requires |scores| == |items| && DecideByName(items, scores).NeedsSelection?
    requires p < q < |DecideByName(items, scores).choices|
    ensures var choices := DecideByName(items, scores).choices;
      choices[p].score == choices[q].score ==> !Precedes(choices[p].partner, choices[q].partner)
  {
    ChoiceOf(items, scores, p);
    ChoiceOf(items, scores, q);
    SortedFollowsPartners(items, scores, p, q);
  }

  // ---------- What the choice fills in ----------

  /** Each empty field is filled with the same field of the chosen candidate, and the payload says where
      the candidate came from. */
  lemma ChoiceFills(fields: Fields, c: Candidate)
    ensures var payload := Resolved(fields, Selected(c));
      && (Get(fields, RecipientName) == "" ==> Get(payload, RecipientName) == c.name)
      && (Get(fields, RecipientPhone) == "" ==> Get(payload, RecipientPhone) == c.phone)
      && (Get(fields, AccountRef) == "" ==> Get(payload, AccountRef) == c.account)
      && (Get(fields, PartnerName) == "" ==> Get(payload, PartnerName) == c.partner)
      && (Get(fields, CountryDestination) == "" ==> Get(payload, CountryDestination) == c.country)
      && Get(payload, MatchName) == c.name
      && Get(payload, MatchSource)
        == (if c.source == SavedBeneficiary then "saved_beneficiary" else "transfer_history")
  {
  }

  lemma OthersStay(fields: Fields, outcome: Outcome, n: Name)
    requires n !in {MatchName, MatchSource} && Get(fields, n) != ""
    ensures Get(Resolved(fields, outcome), n) == Get(fields, n)
  {
  }

  // ---------- Where candidates come from ----------

  ghost predicate SameKey(a: Row, b: Row) {
    && Normalize(a.name) == Normalize(b.name) && Normalize(a.partner) == Normalize(b.partner)
    && Strip(a.phone) == Strip(b.phone) && Lower(Strip(a.account)) == Lower(Strip(b.account))
  }

  ghost predicate Shows(c: Candidate, row: Row) {
    && c.name == Strip(row.name) && c.phone == Strip(row.phone) && c.partner == Strip(row.partner)
    && c.account == Lower(Strip(row.account)) && c.country == Strip(row.country) && c.source == row.source
  }

  ghost predicate IsFirstRow(rows: seq<Row>, i: nat)
    requires i < |rows|
  {
    forall j :: 0 <= j < i ==> !SameKey(rows[j], rows[i])
  }

  lemma KeptIsFirstRow(rows: seq<Row>, i: nat)
    requires i < |rows|
    ensures IsFirst(Keys(rows), i) <==> IsFirstRow(rows, i)
  {
    var keys := Keys(rows);
    assert forall j :: 0 <= j < i ==> keys[..i][j] == keys[j];
    assert forall j :: 0 <= j < i ==> (keys[j] == keys[i] <==> SameKey(rows[j], rows[i]));
  }

  ghost predicate ShowsFirstRow(c: Candidate, rows: seq<Row>) {
    exists i: nat :: i < |rows| && IsFirstRow(rows, i) && Shows(c, rows[i])
  }

  ghost predicate IsShown(row: Row, candidates: seq<Candidate>) {
    exists p :: 0 <= p < |candidates| && Shows(candidates[p], row)
  }

  /** Each candidate shows, trimmed, a row that no earlier row shares its four-part key with; and each
      such row is shown. */
  lemma CandidatesShowFirstRows(rows: seq<Row>)
    ensures forall p :: 0 <= p < |Candidates(rows)| ==> ShowsFirstRow(Candidates(rows)[p], rows)
    ensures forall i: nat :: i < |rows| && IsFirstRow(rows, i) ==> IsShown(rows[i], Candidates(rows))
  {
    var kept, candidates := FirstIndices(Keys(rows)), Candidates(rows);
    KeptAreTheFirst(Keys(rows));
    forall p | 0 <= p < |candidates| ensures ShowsFirstRow(candidates[p], rows) {
      assert kept[p] in kept;
      KeptIsFirstRow(rows, kept[p]);
      assert Shows(candidates[p], rows[kept[p]]);
    }
    forall i: nat | i < |rows| && IsFirstRow(rows, i) ensures IsShown(rows[i], candidates) {
      KeptIsFirstRow(rows, i);
      assert i in kept;
      var p :| 0 <= p < |kept| && kept[p] == i;
      assert Shows(candidates[p], rows[i]);
    }
  }
}
