/** The accent-insensitive `commandFilter` that the combobox and the
    keyword multi-select hand to their command list: it scores an item 1 when
    the search text occurs in the item's value and keywords, first by plain
    lower-case containment and, failing that, after both sides are
    normalised (NFD, marks stripped, `đ`/`Đ` folded to `d`/`D`). */
module CommandFilter {
  import opened Text

  /** `words.join(sep)`. */
  function Join(words: seq<string>, sep: string): (r: string)
    ensures forall i :: 0 <= i < |words| ==> Contains(r, words[i])
    ensures words == [] ==> r == ""
  {
    if words == [] then ""
    else if |words| == 1 then
      assert words[0] == "" + words[0] + "";
      ContainsMiddle("", words[0], "");
      words[0]
    else
      var rest := Join(words[1..], sep);
      ContainsMiddle("", words[0], sep + rest);
      assert "" + words[0] + (sep + rest) == words[0] + sep + rest;
      forall i | 1 <= i < |words|
        ensures Contains(words[0] + sep + rest, words[i])
      {
        assert words[i] == words[1..][i - 1];
        var p, q := ContainsSplit(rest, words[i]);
        assert words[0] + sep + rest == (words[0] + sep + p) + words[i] + q;
        ContainsMiddle(words[0] + sep + p, words[i], q);
      }
      words[0] + sep + rest
  }

  /** The text an item is searched by: its value, a space, and its keywords
      joined by spaces (`keywords?.join(" ") || ""`), before lower-casing.
      It starts with the value and contains every keyword. */
  function ItemText(value: string, keywords: seq<string>): (text: string)
    ensures |text| > |value| && text[..|value|] == value && text[|value|] == ' '
    ensures forall i :: 0 <= i < |keywords| ==> Contains(text, keywords[i])
  {
    var joined := Join(keywords, " ");
    assert forall i :: 0 <= i < |keywords| ==> Contains(value + " " + joined, keywords[i]) by {
      forall i | 0 <= i < |keywords|
        ensures Contains(value + " " + joined, keywords[i])
      {
        var p, q := ContainsSplit(joined, keywords[i]);
        assert value + " " + joined == (value + " " + p) + keywords[i] + q;
        ContainsMiddle(value + " " + p, keywords[i], q);
      }
    }
    value + " " + joined
  }

  /** The score `commandFilter(value, search, keywords)` returns. */
  function Score(value: string, search: string, keywords: seq<string>): (score: int)
    ensures score == 0 || score == 1
  {
    var extended := Lower(ItemText(value, keywords));
    if Contains(extended, Lower(search)) then 1
    else if Contains(Normalize(extended), Normalize(search)) then 1
    else 0
  }

  /** The two tiers together are exactly normalised containment: for the
      letters `Decompose` covers, the plain tier is a shortcut that never
      decides differently from the second. */
  lemma ScoreIsNormalizedContainment(value: string, search: string, keywords: seq<string>)
    ensures Score(value, search, keywords) == 1 <==>
      Contains(Normalize(ItemText(value, keywords)), Normalize(search))
  {
    var text := ItemText(value, keywords);
    NormalizeLower(text);
    if Contains(Lower(text), Lower(search)) {
      NormalizeKeepsContainment(Lower(text), Lower(search));
      NormalizeLower(search);
    }
  }

  /** An empty search keeps every item, on the plain tier. */
  lemma EmptySearchScoresOne(value: string, keywords: seq<string>)
    ensures Score(value, "", keywords) == 1
  {
    ContainsEmpty(Lower(ItemText(value, keywords)));
  }

  /** Two searches that differ only in accents, `đ`/`Đ` or case select the
      same items. */
  lemma ScoreAccentInsensitive(value: string, s1: string, s2: string, keywords: seq<string>)
    requires Normalize(s1) == Normalize(s2)
    ensures Score(value, s1, keywords) == Score(value, s2, keywords)
  {
    ScoreIsNormalizedContainment(value, s1, keywords);
    ScoreIsNormalizedContainment(value, s2, keywords);
  }

  /** Searching for any spelling that normalises like one of the keywords
      finds the item: accents, `đ`/`Đ` and case do not matter. */
  lemma KeywordSpellingIsFound(value: string, search: string, keywords: seq<string>, i: nat)
    requires i < |keywords| && Normalize(search) == Normalize(keywords[i])
    ensures Score(value, search, keywords) == 1
  {
    NormalizeKeepsContainment(ItemText(value, keywords), keywords[i]);
    ScoreIsNormalizedContainment(value, search, keywords);
  }

  /** Searching for any spelling that normalises like the item's value
      finds the item: "ca phe" finds "C\U{00E0} ph\U{00EA}". */
  lemma SameSpellingIsFound(value: string, search: string, keywords: seq<string>)
    requires Normalize(search) == Normalize(value)
    ensures Score(value, search, keywords) == 1
  {
    var text := ItemText(value, keywords);
    assert OccursAt(text, value, 0);
    NormalizeKeepsContainment(text, value);
    ScoreIsNormalizedContainment(value, search, keywords);
  }

  /** How single letters fold: accents disappear and the result is
      lower-case ... */
  lemma FoldedLatinExamples()
    ensures Folded('\U{00E0}') == 'a' && Folded('\U{00CA}') == 'e'
    ensures Folded('C') == 'c' && Folded(' ') == ' '
  {
  }

  /** ... and so do the Vietnamese tone marks and the horn ... */
  lemma FoldedVietnameseExamples()
    ensures Folded('\U{1EA7}') == 'a' && Folded('\U{01AF}') == 'u'
  {
  }

  /** ... and the stroke of `đ`/`Đ`. */
  lemma FoldedStrokeExamples()
    ensures Folded('\U{0111}') == 'd' && Folded('\U{0110}') == 'd'
  {
  }

  /** Folding removes accents but keeps the base letter: searching for `ò`
      does not find an item whose text is `à`. */
  lemma OtherBaseLetterIsNotFound()
    ensures Score("\U{00E0}", "\U{00F2}", []) == 0
  {
    assert ItemText("\U{00E0}", []) == ['\U{00E0}', ' '];
    NormalizeGraveA();
    NormalizeGraveO();
    assert !Contains(['a', ' '], ['o']);
    ScoreIsNormalizedContainment("\U{00E0}", "\U{00F2}", []);
  }

  lemma NormalizeGraveA()
    ensures Normalize(['\U{00E0}', ' ']) == ['a', ' ']
  {
    NormalizeCons('\U{00E0}', [' ']);
    NormalizeChar(' ');
    FoldedLatinExamples();
  }

  lemma NormalizeGraveO()
    ensures Normalize(['\U{00F2}']) == ['o']
  {
    NormalizeChar('\U{00F2}');
    assert Folded('\U{00F2}') == 'o';
  }
}
