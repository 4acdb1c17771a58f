/** The string operations the assistant relies on, over ASCII: `str.strip`, `str.lower`
    and the whitespace squeeze `" ".join(value.split())`. */
module Text {

  predicate IsSpace(c: char) {
    c == ' ' || c == '\t' || c == '\n' || c == '\r'
  }

  function LowerChar(c: char): char {
    if 'A' <= c <= 'Z' then (c as int + 32) as char else c
  }

  function Lower(s: string): (r: string)
    ensures |r| == |s|
  {
    seq(|s|, i requires 0 <= i < |s| => LowerChar(s[i]))
  }

  lemma LowerIsIdempotent(s: string)
    ensures Lower(Lower(s)) == Lower(s)
  {
  }

  function StripLeft(s: string): string {
    if s != "" && IsSpace(s[0]) then StripLeft(s[1..]) else s
  }

  function StripRight(s: string): string {
    if s != "" && IsSpace(s[|s| - 1]) then StripRight(s[..|s| - 1]) else s
  }

  function Strip(s: string): string {
    StripRight(StripLeft(s))
  }

  /** Collapses every run of whitespace to one blank. */
  function Squeeze(s: string): string {
    if s == "" then ""
    else if IsSpace(s[0]) then
      (if |s| > 1 && IsSpace(s[1]) then [] else " ") + Squeeze(s[1..])
    else [s[0]] + Squeeze(s[1..])
  }

  /** `_normalize_match_text`. */
  function Normalize(s: string): string {
    Squeeze(Lower(Strip(s)))
  }

  /** `needle in hay` for Python strings. */
  predicate Contains(hay: string, needle: string) {
    needle <= hay || (hay != "" && Contains(hay[1..], needle))
  }

  // ---------- What they do ----------

  predicate Blank(s: string) {
    forall i :: 0 <= i < |s| ==> IsSpace(s[i])
  }

  predicate Trimmed(s: string) {
    s != "" ==> !IsSpace(s[0]) && !IsSpace(s[|s| - 1])
  }

  lemma {:induction false} StripLeftTrims(s: string) returns (left: string)
    ensures s == left + StripLeft(s) && Blank(left)
    ensures StripLeft(s) != "" ==> !IsSpace(StripLeft(s)[0])
  {
    if s != "" && IsSpace(s[0]) {
      left := StripLeftTrims(s[1..]);
      left := [s[0]] + left;
    } else {
      left := "";
    }
  }

  lemma {:induction false} StripRightTrims(s: string) returns (right: string)
    ensures s == StripRight(s) + right && Blank(right)
    ensures StripRight(s) != "" ==> !IsSpace(StripRight(s)[|StripRight(s)| - 1])
  {
    if s != "" && IsSpace(s[|s| - 1]) {
      right := StripRightTrims(s[..|s| - 1]);
      right := right + [s[|s| - 1]];
    } else {
      right := "";
    }
  }

  /** Stripping drops whitespace at both ends and nothing else. */
  lemma StripTrims(s: string) returns (left: string, right: string)
    ensures s == left + Strip(s) + right && Blank(left) && Blank(right) && Trimmed(Strip(s))
  {
    left := StripLeftTrims(s);
    right := StripRightTrims(StripLeft(s));
    assert Strip(s) != "" ==> Strip(s)[0] == StripLeft(s)[0];
  }

  /** Only the case of letters is lost in lower-casing. */
  lemma LowerFoldsCase(s: string, t: string)
    requires |s| == |t|
    requires forall i :: 0 <= i < |s| ==> s[i] == t[i] || ('A' <= s[i] <= 'Z' && t[i] as int == s[i] as int + 32)
    ensures Lower(s) == Lower(t)
    ensures (forall i :: 0 <= i < |t| ==> !('A' <= t[i] <= 'Z')) ==> Lower(t) == t
  {
  }

  predicate Squeezed(s: string) {
    forall i :: 0 <= i < |s| && IsSpace(s[i]) ==> s[i] == ' ' && (i + 1 < |s| ==> !IsSpace(s[i + 1]))
  }

  /** The characters that are not whitespace. */
  function Letters(s: string): string {
    if s == "" then "" else (if IsSpace(s[0]) then "" else [s[0]]) + Letters(s[1..])
  }

  lemma LettersOfOneMore(c: char, rest: string)
    ensures Letters([c] + rest) == (if IsSpace(c) then "" else [c]) + Letters(rest)
  {
    assert ([c] + rest)[1..] == rest;
  }

  lemma {:induction false} SqueezeStarts(s: string)
    ensures s != "" ==> Squeeze(s) != "" && (IsSpace(Squeeze(s)[0]) <==> IsSpace(s[0]))
  {
    if |s| > 1 && IsSpace(s[0]) && IsSpace(s[1]) {
      SqueezeStarts(s[1..]);
    }
  }

  /** Squeezing leaves no whitespace but single blanks. */
  lemma {:induction false} SqueezeLeavesSingleBlanks(s: string)
    ensures Squeezed(Squeeze(s))
  {
    if s != "" {
      SqueezeLeavesSingleBlanks(s[1..]);
      SqueezeStarts(s[1..]);
    }
  }

  /** And keeps the letters between them. */
  lemma {:induction false} SqueezeKeepsLetters(s: string)
    ensures Letters(Squeeze(s)) == Letters(s)
  {
    if s != "" {
      var rest := Squeeze(s[1..]);
      SqueezeKeepsLetters(s[1..]);
      LettersOfOneMore(' ', rest);
      LettersOfOneMore(s[0], rest);
      LettersOfOneMore(s[0], s[1..]);
      assert [s[0]] + s[1..] == s && [] + rest == rest;
    }
  }

  predicate OccursAt(hay: string, needle: string, k: nat) {
    k + |needle| <= |hay| && hay[k..k + |needle|] == needle
  }

  /** A text contains another exactly when the other occurs in it somewhere. */
  lemma {:induction false} ContainsIsOccurrence(hay: string, needle: string)
    ensures Contains(hay, needle) <==> exists k: nat :: OccursAt(hay, needle, k)
  {
    if needle <= hay {
      assert OccursAt(hay, needle, 0);
    } else if hay != "" {
      ContainsIsOccurrence(hay[1..], needle);
      if k: nat :| OccursAt(hay[1..], needle, k) {
        assert OccursAt(hay, needle, k + 1);
      }
      if k: nat :| OccursAt(hay, needle, k) {
        assert k > 0;
        assert OccursAt(hay[1..], needle, k - 1);
      }
    }
  }

  // ---------- Normal forms ----------

  /** `s.split()`: the words between the whitespace. */
  function Words(s: string): (words: seq<string>)
    ensures s != "" && !IsSpace(s[0]) ==> words != []
  {
    if s == "" then []
    else if IsSpace(s[0]) then Words(s[1..])
    else
      var rest := Words(s[1..]);
      if |s| > 1 && !IsSpace(s[1]) then [[s[0]] + rest[0]] + rest[1..] else [[s[0]]] + rest
  }

  /** `" ".join(words)`. */
  function Join(words: seq<string>): string {
    if words == [] then "" else if |words| == 1 then words[0] else words[0] + " " + Join(words[1..])
  }

  lemma {:induction false} WordsAfterBlank(blank: string, s: string)
    requires Blank(blank)
    ensures Words(blank + s) == Words(s)
  {
    if blank == "" {
      assert blank + s == s;
    } else {
      assert (blank + s)[1..] == blank[1..] + s && (blank + s)[0] == blank[0];
      WordsAfterBlank(blank[1..], s);
    }
  }

  lemma {:induction false} WordsBeforeBlank(s: string, blank: string)
    requires Blank(blank)
    ensures Words(s + blank) == Words(s)
  {
    if s == "" {
      WordsAfterBlank(blank, "");
      assert s + blank == blank + "";
    } else {
      assert (s + blank)[1..] == s[1..] + blank && (s + blank)[0] == s[0];
      WordsBeforeBlank(s[1..], blank);
      assert |s| > 1 ==> (s + blank)[1] == s[1];
    }
  }

  lemma JoinGrows(c: char, words: seq<string>)
    requires words != []
    ensures Join([[c] + words[0]] + words[1..]) == [c] + Join(words)
  {
    if |words| > 1 {
      assert [c] + words[0] + " " + Join(words[1..]) == [c] + (words[0] + " " + Join(words[1..]));
    }
  }

  function Lead(s: string): string {
    if s != "" && IsSpace(s[0]) then " " else ""
  }

  /** Squeezing a text that does not end in whitespace joins its words, after a blank if it starts in one. */
  lemma {:induction false} SqueezeJoins(s: string)
    requires s != "" ==> !IsSpace(s[|s| - 1])
    ensures Squeeze(s) == Lead(s) + Join(Words(s))
  {
    if |s| == 1 {
      assert s == [s[0]];
    } else if |s| > 1 {
      SqueezeJoins(s[1..]);
      HasWords(s[1..]);
      if IsSpace(s[0]) {
        assert Squeeze(s) == " " + Join(Words(s[1..]));
      } else {
        SqueezeWord(s);
      }
    }
  }

  lemma SqueezeWord(s: string)
    requires |s| > 1 && !IsSpace(s[0]) && Words(s[1..]) != []
    requires Squeeze(s[1..]) == Lead(s[1..]) + Join(Words(s[1..]))
    ensures Squeeze(s) == Join(Words(s))
  {
    if IsSpace(s[1]) {
      JoinStarts([s[0]], Words(s[1..]));
    } else {
      JoinGrows(s[0], Words(s[1..]));
    }
  }

  lemma JoinStarts(word: string, words: seq<string>)
    requires words != []
    ensures Join([word] + words) == word + (" " + Join(words))
  {
    assert ([word] + words)[1..] == words;
  }

  lemma {:induction false} HasWords(s: string)
    requires s != "" && !IsSpace(s[|s| - 1])
    ensures Words(s) != []
  {
    if IsSpace(s[0]) {
      HasWords(s[1..]);
    }
  }

  lemma LowerOfConcat(a: string, b: string)
    ensures Lower(a + b) == Lower(a) + Lower(b)
  {
  }

  lemma LowerKeepsSpaces(s: string)
    ensures forall i :: 0 <= i < |s| ==> (IsSpace(Lower(s)[i]) <==> IsSpace(s[i]))
  {
  }

  /** Normalising joins the lower-cased words of a text. */
  lemma NormalizeJoinsWords(s: string)
    ensures Normalize(s) == Join(Words(Lower(s)))
  {
    var left, right := StripTrims(s);
    var strip := Strip(s);
    LowerKeepsSpaces(left);
    LowerKeepsSpaces(strip);
    LowerKeepsSpaces(right);
    SqueezeJoins(Lower(strip));
    LowerOfConcat(left + strip, right);
    LowerOfConcat(left, strip);
    WordsBeforeBlank(Lower(left) + Lower(strip), Lower(right));
    WordsAfterBlank(Lower(left), Lower(strip));
  }
}
