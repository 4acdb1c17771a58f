/** The synonym table of the message parser: which canonical value a message names. */
module Synonyms {
  import opened FirstMaximum
  import opened Options

  /** A row of the table; `text` is already normalised. */
  datatype Synonym = Synonym(text: string, canonical: string)

  /** `occurs` tells whether a text occurs in the message between word boundaries. */
  function Weights(synonyms: seq<Synonym>, occurs: string -> bool): seq<real> {
    seq(|synonyms|, i requires 0 <= i < |synonyms| =>
      if synonyms[i].text != "" && occurs(synonyms[i].text) then |synonyms[i].text| as real else 0.0)
  }

  predicate Matches(s: Synonym, occurs: string -> bool) {
    s.text != "" && occurs(s.text)
  }

  /** Synonym `i` occurs, no synonym that occurs is longer, and each one before it is shorter. */
  predicate FirstLongest(synonyms: seq<Synonym>, occurs: string -> bool, i: nat)
    requires i < |synonyms|
  {
    Matches(synonyms[i], occurs) && forall j :: 0 <= j < |synonyms| && Matches(synonyms[j], occurs) ==>
      |synonyms[j].text| <= |synonyms[i].text| && (j < i ==> |synonyms[j].text| < |synonyms[i].text|)
  }

  /** The canonical value of the longest synonym that occurs, the first of the longest; none when
      none occurs. */
  method BestSynonymMatch(synonyms: seq<Synonym>, occurs: string -> bool) returns (canonical: Option<string>)
    ensures canonical.None? <==> forall i :: 0 <= i < |synonyms| ==> !Matches(synonyms[i], occurs)
    ensures canonical.Some? ==>
      exists i :: 0 <= i < |synonyms| && FirstLongest(synonyms, occurs, i) && synonyms[i].canonical == canonical.value
  {
    ghost var weights := Weights(synonyms, occurs);
    ghost var chosen := -1;
    var best: Option<(nat, string)> := None;
    for i := 0 to |synonyms|
      invariant chosen == FirstMax(weights[..i]) && (best.None? <==> chosen < 0)
      invariant best.Some? ==> best.value == (|synonyms[chosen].text|, synonyms[chosen].canonical)
      invariant best.Some? ==> weights[chosen] == best.value.0 as real > 0.0
    {
      assert weights[..i + 1][..i] == weights[..i];
      var synonym := synonyms[i];
      if synonym.text != "" && occurs(synonym.text) {
        var score := |synonym.text|;
        if best.None? || score > best.value.0 {
          best := Some((score, synonym.canonical));
          chosen := i;
        }
      }
    }
    assert weights[..|synonyms|] == weights;
    FirstMaxIsFirstMaximum(weights);
    assert forall i :: 0 <= i < |synonyms| ==> (Matches(synonyms[i], occurs) <==> weights[i] > 0.0);
    assert chosen >= 0 ==> FirstLongest(synonyms, occurs, chosen);
    canonical := if best.Some? then Some(best.value.1) else None;
  }
}
