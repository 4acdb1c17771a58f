/** How the agent chat completes a transfer draft from what the user sent before: past phrasings,
    then the transfer history twice, then a default partner. */
module AgentChat {
  import opened FirstMaximum
  import opened Text

  /** Text normalisation and the two similarity measures stay uninterpreted. */
  datatype TextOps = TextOps(norm: string -> string, ratio: (string, string) -> real, overlap: (string, string) -> real)

  ghost predicate Idempotent(ops: TextOps) {
    forall s :: ops.norm(ops.norm(s)) == ops.norm(s)
  }

  function Max(x: real, y: real): real {
    if x < y then y else x
  }

  function NameScore(ops: TextOps, query: string, candidate: string): (score: real)
    ensures score >= 0.0
  {
    var q, c := ops.norm(query), ops.norm(candidate);
    var contained := if q != "" && (Text.Contains(c, q) || Text.Contains(q, c)) then 0.96 else 0.0;
    Max(Max(ops.ratio(q, c), ops.overlap(q, c)), contained)
  }

  /** A past transfer as the history lists it. */
  datatype Item = Item(name: string, phone: string, partner: string, country: string)

  /** A past phrasing and what it meant. */
  datatype Memory = Memory(raw: string, alias: string, name: string, phone: string, partner: string, country: string)

  /** What a draft knows; the empty string stands for an unknown field. */
  datatype Facts = Facts(recipient: string, phone: string, partner: string, country: string, recognized: bool)

  function Keep(known: string, learned: string): string {
    if known != "" then known else learned
  }

  // ---------- The stages ----------

  function MemoryScore(ops: TextOps, f: Facts, raw: string, m: Memory): real {
    var byMessage := Max(NameScore(ops, ops.norm(raw), m.raw), NameScore(ops, ops.norm(raw), m.alias));
    if f.recipient == "" then byMessage
    else Max(byMessage, Max(NameScore(ops, f.recipient, m.alias), NameScore(ops, f.recipient, m.name)))
  }

  function MemoryScores(ops: TextOps, f: Facts, raw: string, ms: seq<Memory>): seq<real> {
    seq(|ms|, i requires 0 <= i < |ms| => MemoryScore(ops, f, raw, ms[i]))
  }

  function FromMemory(f: Facts, m: Memory): Facts {
    f.(
      recipient := Keep(f.recipient, Strip(m.name)),
      phone := Keep(f.phone, Strip(m.phone)),
      partner := Keep(f.partner, Strip(m.partner)),
      country := Keep(f.country, Strip(m.country)))
  }

  function LearnFromMemories(ops: TextOps, f: Facts, raw: string, ms: seq<Memory>): Facts {
    var scores := MemoryScores(ops, f, raw, ms);
    var best := FirstMax(scores);
    if best < 0 || scores[best] < 0.72 then f else FromMemory(f, ms[best])
  }

  function HistoryScores(ops: TextOps, recipient: string, items: seq<Item>): seq<real> {
    seq(|items|, i requires 0 <= i < |items| => NameScore(ops, recipient, Strip(items[i].name)))
  }

  function FromHistory(f: Facts, item: Item): Facts {
    f.(
      recognized := true,
      phone := Keep(f.phone, item.phone),
      partner := Keep(f.partner, item.partner),
      country := Keep(f.country, item.country))
  }

  function ResolveFromHistory(ops: TextOps, f: Facts, items: seq<Item>): Facts {
    var scores := HistoryScores(ops, ops.norm(f.recipient), items);
    var best := FirstMax(scores);
    if f.recipient == "" || best < 0 || scores[best] < 0.6 then f else FromHistory(f, items[best])
  }

  predicate Named(item: Item) {
    Strip(item.name) != ""
  }

  /** The second pass over the history skips the rows without a name. */
  function NamedScores(ops: TextOps, recipient: string, items: seq<Item>): seq<real> {
    seq(|items|, i requires 0 <= i < |items| =>
      if Named(items[i]) then NameScore(ops, recipient, Strip(items[i].name)) else 0.0)
  }

  function LearnFromHistory(ops: TextOps, f: Facts, items: seq<Item>): Facts {
    var scores := NamedScores(ops, f.recipient, items);
    var best := FirstMax(scores);
    if f.recipient == "" || (f.partner != "" && f.country != "") || best < 0 || scores[best] < 0.6 then f
    else f.(partner := Keep(f.partner, Strip(items[best].partner)),
          country := Keep(f.country, Strip(items[best].country)))
  }

  function ApplyDefaults(f: Facts): Facts {
    if f.country == "Burundi" && f.partner == "" then f.(partner := "Lumicash") else f
  }

  function Completed(ops: TextOps, f: Facts, raw: string, ms: seq<Memory>, items: seq<Item>): Facts {
    ApplyDefaults(LearnFromHistory(ops, ResolveFromHistory(ops, LearnFromMemories(ops, f, raw, ms), items), items))
  }

  class Draft {
    var recipient: string
    var phone: string
    var partner: string
    var country: string
    var recognized: bool

    function Contents(): Facts
      reads this
    {
      Facts(recipient, phone, partner, country, recognized)
    }

    constructor (f: Facts)
      ensures Contents() == f
    {
      recipient, phone, partner, country, recognized := f.recipient, f.phone, f.partner, f.country, f.recognized;
    }

    method BestMemory(ops: TextOps, raw: string, ms: seq<Memory>) returns (best: int, bestScore: real)
      ensures var scores := MemoryScores(ops, Contents(), raw, ms);
        best == FirstMax(scores) && bestScore == BestScore(scores, best)
    {
      ghost var scores := MemoryScores(ops, Contents(), raw, ms);
      best, bestScore := -1, 0.0;
      for i := 0 to |ms|
        invariant best == FirstMax(scores[..i]) && bestScore == BestScore(scores[..i], best)
      {
        assert scores[..i + 1][..i] == scores[..i];
        var score := MemoryScore(ops, Contents(), raw, ms[i]);
        assert score == scores[i];
        if score > bestScore {
          best, bestScore := i, score;
        }
      }
      assert scores[..|ms|] == scores;
    }

    method LearnMemories(ops: TextOps, raw: string, ms: seq<Memory>)
      modifies this
      ensures Contents() == LearnFromMemories(ops, old(Contents()), raw, ms)
    {
      var best, bestScore := BestMemory(ops, raw, ms);
      if best < 0 || bestScore < 0.72 {
        return;
      }
      var m := ms[best];
      if recipient == "" { recipient := Strip(m.name); }
      if phone == "" { phone := Strip(m.phone); }
      if partner == "" { partner := Strip(m.partner); }
      if country == "" { country := Strip(m.country); }
    }

    method ResolveHistory(ops: TextOps, items: seq<Item>)
      modifies this
      ensures Contents() == ResolveFromHistory(ops, old(Contents()), items)
    {
      if recipient == "" {
        return;
      }
      var query := ops.norm(recipient);
      ghost var scores := HistoryScores(ops, query, items);
      var best, bestScore := -1, 0.0;
      for i := 0 to |items|
        invariant Contents() == old(Contents())
        invariant best == FirstMax(scores[..i]) && bestScore == BestScore(scores[..i], best)
      {
        assert scores[..i + 1][..i] == scores[..i];
        var score := NameScore(ops, query, Strip(items[i].name));
        if score > bestScore {
          best, bestScore := i, score;
        }
      }
      assert scores[..|items|] == scores;
      if best < 0 || bestScore < 0.6 {
        return;
      }
      recognized := true;
      if phone == "" { phone := items[best].phone; }
      if partner == "" { partner := items[best].partner; }
      if country == "" { country := items[best].country; }
    }

    method BestNamed(ops: TextOps, items: seq<Item>) returns (best: int, bestScore: real)
      ensures var scores := NamedScores(ops, recipient, items);
        best == FirstMax(scores) && bestScore == BestScore(scores, best)
    {
      ghost var scores := NamedScores(ops, recipient, items);
      best, bestScore := -1, 0.0;
      for i := 0 to |items|
        invariant best == FirstMax(scores[..i]) && bestScore == BestScore(scores[..i], best)
        invariant bestScore >= 0.0
      {
        assert scores[..i + 1][..i] == scores[..i];
        var candidate := Strip(items[i].name);
        if candidate != "" {
          var score := NameScore(ops, recipient, candidate);
          assert score == scores[i];
          if score > bestScore {
            best, bestScore := i, score;
          }
        } else {
          assert scores[i] == 0.0;
        }
      }
      assert scores[..|items|] == scores;
    }

    method LearnHistory(ops: TextOps, items: seq<Item>)
      modifies this
      ensures Contents() == LearnFromHistory(ops, old(Contents()), items)
    {
      if recipient == "" || (partner != "" && country != "") {
        return;
      }
      var best, bestScore := BestNamed(ops, items);
      if best < 0 || bestScore < 0.6 {
        return;
      }
      if partner == "" { partner := Strip(items[best].partner); }
      if country == "" { country := Strip(items[best].country); }
    }

    method Complete(ops: TextOps, raw: string, ms: seq<Memory>, items: seq<Item>)
      modifies this
      ensures Contents() == Completed(ops, old(Contents()), raw, ms, items)
    {
      LearnMemories(ops, raw, ms);
      ResolveHistory(ops, items);
      LearnHistory(ops, items);
      if country == "Burundi" && partner == "" {
        partner := "Lumicash";
      }
    }
  }

  // ---------- What the stages keep ----------

  /** `g` knows everything `f` does. */
  predicate Extends(f: Facts, g: Facts) {
    && (f.recipient != "" ==> g.recipient == f.recipient)
    && (f.phone != "" ==> g.phone == f.phone)
    && (f.partner != "" ==> g.partner == f.partner)
    && (f.country != "" ==> g.country == f.country)
  }

  /** No stage overwrites a field the parser filled. */
  lemma CompletionOnlyAdds(ops: TextOps, f: Facts, raw: string, ms: seq<Memory>, items: seq<Item>)
    ensures Extends(f, Completed(ops, f, raw, ms, items))
  {
    var learned := LearnFromMemories(ops, f, raw, ms);
    var resolved := ResolveFromHistory(ops, learned, items);
    assert Extends(f, learned) && Extends(learned, resolved);
    assert Extends(resolved, LearnFromHistory(ops, resolved, items));
  }

  // ---------- What a stage fills in ----------

  /** `g` is `f` with each empty field filled from the row. */
  ghost predicate FilledFrom(f: Facts, g: Facts, phone: string, partner: string, country: string) {
    && g.phone == (if f.phone != "" then f.phone else phone)
    && g.partner == (if f.partner != "" then f.partner else partner)
    && g.country == (if f.country != "" then f.country else country)
  }

  /** The texts, once normalised, contain one another or reach `limit` in one of the similarities. */
  ghost predicate Alike(ops: TextOps, query: string, text: string, limit: real) {
    var q, t := ops.norm(query), ops.norm(text);
    || (q != "" && (Text.Contains(t, q) || Text.Contains(q, t)))
    || ops.ratio(q, t) >= limit || ops.overlap(q, t) >= limit
  }

  lemma AlikeScores(ops: TextOps, query: string, text: string, limit: real)
    requires 0.0 < limit <= 0.96
    ensures NameScore(ops, query, text) >= limit <==> Alike(ops, query, text, limit)
  {
  }

  /** The message is like a past phrasing or its alias, or its recipient like the phrasing's alias or name. */
  ghost predicate Recalls(ops: TextOps, f: Facts, raw: string, m: Memory) {
    || Alike(ops, ops.norm(raw), m.raw, 0.72) || Alike(ops, ops.norm(raw), m.alias, 0.72)
    || (f.recipient != ""
        && (Alike(ops, f.recipient, m.alias, 0.72) || Alike(ops, f.recipient, m.name, 0.72)))
  }

  lemma RecallScores(ops: TextOps, f: Facts, raw: string, m: Memory)
    ensures MemoryScore(ops, f, raw, m) >= 0.72 <==> Recalls(ops, f, raw, m)
  {
    AlikeScores(ops, ops.norm(raw), m.raw, 0.72);
    AlikeScores(ops, ops.norm(raw), m.alias, 0.72);
    AlikeScores(ops, f.recipient, m.alias, 0.72);
    AlikeScores(ops, f.recipient, m.name, 0.72);
  }

  /** The only past phrasing the message recalls says what the draft leaves open, field by field. */
  lemma KnownPhrasingIsLearned(ops: TextOps, f: Facts, raw: string, ms: seq<Memory>, i: nat)
    requires i < |ms| && forall j :: 0 <= j < |ms| ==> (Recalls(ops, f, raw, ms[j]) <==> j == i)
    ensures var g := LearnFromMemories(ops, f, raw, ms);
      && g.recipient == (if f.recipient != "" then f.recipient else Strip(ms[i].name))
      && FilledFrom(f, g, Strip(ms[i].phone), Strip(ms[i].partner), Strip(ms[i].country))
      && g.recognized == f.recognized
  {
    var scores := MemoryScores(ops, f, raw, ms);
    forall j | 0 <= j < |ms| ensures scores[j] >= 0.72 <==> j == i {
      RecallScores(ops, f, raw, ms[j]);
    }
    FirstMaxIs(scores, i);
  }

  /** And without such a phrasing nothing is learned. */
  lemma UnlikePhrasingsTeachNothing(ops: TextOps, f: Facts, raw: string, ms: seq<Memory>)
    requires forall i :: 0 <= i < |ms| ==> !Recalls(ops, f, raw, ms[i])
    ensures LearnFromMemories(ops, f, raw, ms) == f
  {
    var scores := MemoryScores(ops, f, raw, ms);
    forall i | 0 <= i < |ms| ensures scores[i] < 0.72 {
      RecallScores(ops, f, raw, ms[i]);
    }
  }

  /** The recipient is like the one of a past transfer. */
  ghost predicate Resembles(ops: TextOps, f: Facts, item: Item) {
    f.recipient != "" && Alike(ops, ops.norm(f.recipient), Strip(item.name), 0.6)
  }

  /** The only past transfer whose recipient is like the draft's recognises it and says what the draft
      leaves open, field by field. */
  lemma KnownRecipientIsRecognised(ops: TextOps, f: Facts, items: seq<Item>, i: nat)
    requires i < |items| && forall j :: 0 <= j < |items| ==> (Resembles(ops, f, items[j]) <==> j == i)
    ensures var g := ResolveFromHistory(ops, f, items);
      && g.recognized && g.recipient == f.recipient
      && FilledFrom(f, g, items[i].phone, items[i].partner, items[i].country)
  {
    var scores := HistoryScores(ops, ops.norm(f.recipient), items);
    assert Resembles(ops, f, items[i]);
    forall j | 0 <= j < |items| ensures scores[j] >= 0.6 <==> j == i {
      AlikeScores(ops, ops.norm(f.recipient), Strip(items[j].name), 0.6);
    }
    FirstMaxIs(scores, i);
  }

  /** A recipient unlike all past ones is not, and neither is a draft without a recipient. */
  lemma UnlikeRecipientIsNot(ops: TextOps, f: Facts, items: seq<Item>)
    requires forall i :: 0 <= i < |items| ==> !Resembles(ops, f, items[i])
    ensures ResolveFromHistory(ops, f, items) == f
  {
    if f.recipient != "" {
      var scores := HistoryScores(ops, ops.norm(f.recipient), items);
      forall i | 0 <= i < |items| ensures scores[i] < 0.6 {
        AlikeScores(ops, ops.norm(f.recipient), Strip(items[i].name), 0.6);
      }
    }
  }

  /** Towards Burundi a draft without a partner ends up with Lumicash; nothing else is defaulted. */
  lemma BurundiIsServedByLumicash(ops: TextOps, f: Facts, raw: string, ms: seq<Memory>, items: seq<Item>)
    ensures var g := LearnFromHistory(ops, ResolveFromHistory(ops, LearnFromMemories(ops, f, raw, ms), items), items);
      Completed(ops, f, raw, ms, items)
        == if g.country == "Burundi" && g.partner == "" then g.(partner := "Lumicash") else g
  {
  }

  // ---------- The second pass over the history ----------

  lemma ScoresAgree(ops: TextOps, recipient: string, items: seq<Item>)
    requires Idempotent(ops)
    ensures forall i :: 0 <= i < |items| ==>
      HistoryScores(ops, ops.norm(recipient), items)[i] == NameScore(ops, recipient, Strip(items[i].name))
  {
  }

  /** Both passes pick the same row, or the first pass picks a row without a name. */
  lemma SamePick(ops: TextOps, recipient: string, items: seq<Item>)
    requires Idempotent(ops)
    ensures var all, named := HistoryScores(ops, ops.norm(recipient), items), NamedScores(ops, recipient, items);
      var first, second := FirstMax(all), FirstMax(named);
      && (first < 0 ==> second < 0)
      && (first >= 0 && Named(items[first]) ==> second == first && named[second] == all[first])
      && (second >= 0 ==> named[second] <= all[first])
  {
    var all, named := HistoryScores(ops, ops.norm(recipient), items), NamedScores(ops, recipient, items);
    ScoresAgree(ops, recipient, items);
    FirstMaxIsFirstMaximum(all);
    FirstMaxIsFirstMaximum(named);
    var first := FirstMax(all);
    assert forall i :: 0 <= i < |items| ==> named[i] <= all[i];
    if first >= 0 && Named(items[first]) {
      FirstMaxIs(named, first);
    }
  }

  /** The filling branch of the second pass changes a resolved draft exactly when the first pass
      settled on a row without a name and the best named row supplies what that row lacked. */
  lemma SecondPassChangesIff(ops: TextOps, f: Facts, items: seq<Item>)
    requires Idempotent(ops)
    ensures var g := ResolveFromHistory(ops, f, items);
      var all, named := HistoryScores(ops, ops.norm(f.recipient), items), NamedScores(ops, f.recipient, items);
      var first, second := FirstMax(all), FirstMax(named);
      LearnFromHistory(ops, g, items) != g <==>
        && f.recipient != "" && first >= 0 && all[first] >= 0.6 && !Named(items[first])
        && second >= 0 && named[second] >= 0.6
        && ((g.partner == "" && Strip(items[second].partner) != "")
            || (g.country == "" && Strip(items[second].country) != ""))
  {
    SamePick(ops, f.recipient, items);
    var first := FirstMax(HistoryScores(ops, ops.norm(f.recipient), items));
    if first >= 0 {
      StripEmpty();
    }
  }

  lemma StripEmpty()
    ensures Strip("") == ""
  {
  }

  /** So it changes nothing when every row of the history has a name. */
  lemma SecondPassIsRedundant(ops: TextOps, f: Facts, items: seq<Item>)
    requires Idempotent(ops) && forall i :: 0 <= i < |items| ==> Named(items[i])
    ensures LearnFromHistory(ops, ResolveFromHistory(ops, f, items), items) == ResolveFromHistory(ops, f, items)
  {
    SecondPassChangesIff(ops, f, items);
  }

  /** A row whose name and partner are blank scores 0.96 for any recipient and can win over a similar
      name: then the first pass takes that row's phone and country, and the second pass fills in the
      partner of another row. */
  lemma NamelessRowWins()
    ensures var ops := TextOps(s => s, (q, c) => if q == "jean" && c == "jeab" then 0.75 else 0.0, (q, c) => 0.0);
      var items := [Item("", "+25761234567", "", "Burundi"), Item("jeab", "+25769999999", "Ecocash", "Rwanda")];
      var f := Facts("jean", "", "", "", false);
      var g := ResolveFromHistory(ops, f, items);
      && Idempotent(ops)
      && g == f.(recognized := true, phone := "+25761234567", country := "Burundi")
      && LearnFromHistory(ops, g, items) == g.(partner := "Ecocash")
  {
    var ops := TextOps(s => s, (q, c) => if q == "jean" && c == "jeab" then 0.75 else 0.0, (q, c) => 0.0);
    var items := [Item("", "+25761234567", "", "Burundi"), Item("jeab", "+25769999999", "Ecocash", "Rwanda")];
    var all, named := HistoryScores(ops, "jean", items), NamedScores(ops, "jean", items);
    assert Strip("") == "" && Strip("jeab") == "jeab";
    assert !Text.Contains("jeab", "jean") && !Text.Contains("jean", "jeab") && Text.Contains("jean", "");
    assert all[0] == 0.96 && all[1] == 0.75 && named[0] == 0.0 && named[1] == 0.75;
    FirstMaxIs(all, 0);
    FirstMaxIs(named, 1);
    assert Strip("Ecocash") == "Ecocash";
  }
}
