/**
 * `renderEnglishVerse` (App.tsx): while a Hebrew word of this verse is hovered and has an
 * annotation with an English match, the English line is split around that phrase and the
 * pieces equal to it (case ignored) are highlighted.
 */
module Highlight {
  import opened Wrappers
  import opened Types
  import opened Text

  /** The phrase occurs at position `i` of `text`, ASCII case ignored (the `i` flag). */
  predicate MatchesAt(text: string, phrase: string, i: nat) {
    i + |phrase| <= |text| && forall j :: 0 <= j < |phrase| ==> LowerChar(text[i + j]) == LowerChar(phrase[j])
  }

  /** The phrase occurs nowhere in `text`. */
  predicate NoMatch(text: string, phrase: string) {
    forall i :: 0 <= i <= |text| ==> !MatchesAt(text, phrase, i)
  }

  /**
   * `text.split(new RegExp("(" + phrase + ")", "gi"))` for a literal phrase: the pieces between the
   * leftmost non-overlapping matches, with each matched piece (as written in `text`) kept between them.
   */
  function SplitKeeping(text: string, phrase: string): (parts: seq<string>)
    requires phrase != []
    ensures SplitShape(parts, text, phrase)
    decreases |text|
  {
    if text == [] then
      assert Concat([""]) == "" + Concat([]);
      [""]
    else if MatchesAt(text, phrase, 0) then
      var rest := SplitKeeping(text[|phrase|..], phrase);
      MatchStep(text, phrase, rest);
      [""] + [text[..|phrase|]] + rest
    else
      var rest := SplitKeeping(text[1..], phrase);
      SkipStep(text, phrase, rest);
      [[text[0]] + rest[0]] + rest[1..]
  }

  /**
   * The pieces of a split: an odd number of them, together the whole text, and every odd-numbered
   * piece one occurrence of the phrase.
   */
  predicate SplitShape(parts: seq<string>, text: string, phrase: string) {
    && |parts| % 2 == 1
    && Concat(parts) == text
    && forall k :: 0 <= k < |parts| && k % 2 == 1 ==> |parts[k]| == |phrase| && MatchesAt(parts[k], phrase, 0)
  }

  lemma MatchStep(text: string, phrase: string, rest: seq<string>)
    requires phrase != [] && MatchesAt(text, phrase, 0)
    requires SplitShape(rest, text[|phrase|..], phrase)
    ensures SplitShape([""] + [text[..|phrase|]] + rest, text, phrase)
  {
    var matched := text[..|phrase|];
    var q := [""] + [matched] + rest;
    assert matched + text[|phrase|..] == text;
    assert MatchesAt(matched, phrase, 0);
    ConcatAfterMatch(matched, rest);
    forall k | 0 <= k < |q| && k % 2 == 1
      ensures |q[k]| == |phrase| && MatchesAt(q[k], phrase, 0)
    {
      if k > 1 {
        assert q[k] == rest[k - 2];
      }
    }
  }

  lemma SkipStep(text: string, phrase: string, rest: seq<string>)
    requires text != []
    requires SplitShape(rest, text[1..], phrase)
    ensures SplitShape([[text[0]] + rest[0]] + rest[1..], text, phrase)
  {
    var q := [[text[0]] + rest[0]] + rest[1..];
    ConcatExtendingFirst(text[0], rest);
    assert [text[0]] + text[1..] == text;
    forall k | 0 <= k < |q| && k % 2 == 1
      ensures |q[k]| == |phrase| && MatchesAt(q[k], phrase, 0)
    {
      assert q[k] == rest[k];
    }
  }

  lemma ConcatAfterMatch(matched: string, parts: seq<string>)
    ensures Concat([""] + [matched] + parts) == matched + Concat(parts)
  {
    var q := [""] + [matched] + parts;
    assert q[1..] == [matched] + parts && q[1..][1..] == parts;
  }

  lemma StringAppendAssociates(a: string, b: string, c: string)
    ensures (a + b) + c == a + (b + c)
  {
  }

  lemma ConcatExtendingFirst(c: char, parts: seq<string>)
    requires parts != []
    ensures Concat([[c] + parts[0]] + parts[1..]) == [c] + Concat(parts)
  {
    var q := [[c] + parts[0]] + parts[1..];
    assert q[0] == [c] + parts[0] && q[1..] == parts[1..];
    StringAppendAssociates([c], parts[0], Concat(parts[1..]));
  }

  lemma PrefixMatch(s: string, t: string, phrase: string)
    requires MatchesAt(s, phrase, 0) && |s| <= |t| && s == t[..|s|]
    ensures MatchesAt(t, phrase, 0)
  {
    forall j | 0 <= j < |phrase|
      ensures LowerChar(t[j]) == LowerChar(phrase[j])
    {
      assert t[j] == s[j];
    }
  }

  lemma ShiftedMatch(c: char, s: string, phrase: string, i: nat)
    requires MatchesAt([c] + s, phrase, i + 1)
    ensures MatchesAt(s, phrase, i)
  {
    forall j | 0 <= j < |phrase|
      ensures LowerChar(s[i + j]) == LowerChar(phrase[j])
    {
      assert ([c] + s)[i + 1 + j] == s[i + j];
    }
  }

  /** A character put in front shifts every occurrence by one. */
  lemma ShiftedMatchIff(c: char, s: string, phrase: string, i: nat)
    ensures MatchesAt([c] + s, phrase, i + 1) <==> MatchesAt(s, phrase, i)
  {
    if i + |phrase| <= |s| {
      forall j | 0 <= j < |phrase|
        ensures LowerChar(([c] + s)[i + 1 + j]) == LowerChar(phrase[j]) <==> LowerChar(s[i + j]) == LowerChar(phrase[j])
      {
        assert ([c] + s)[i + 1 + j] == s[i + j];
      }
    }
  }

  /** The pieces between the captured matches contain no match of their own. */
  lemma {:induction false} SplitGapsHaveNoMatch(text: string, phrase: string)
    requires phrase != []
    ensures forall k :: 0 <= k < |SplitKeeping(text, phrase)| && k % 2 == 0 ==> NoMatch(SplitKeeping(text, phrase)[k], phrase)
    decreases |text|
  {
    var parts := SplitKeeping(text, phrase);
    if text == [] {
      assert parts == [""];
    } else if MatchesAt(text, phrase, 0) {
      var rest := SplitKeeping(text[|phrase|..], phrase);
      SplitGapsHaveNoMatch(text[|phrase|..], phrase);
      assert parts == [""] + [text[..|phrase|]] + rest;
      forall k | 0 <= k < |parts| && k % 2 == 0
        ensures NoMatch(parts[k], phrase)
      {
        if k >= 2 {
          assert parts[k] == rest[k - 2];
        }
      }
    } else {
      var rest := SplitKeeping(text[1..], phrase);
      SplitGapsHaveNoMatch(text[1..], phrase);
      var first := [text[0]] + rest[0];
      assert parts == [first] + rest[1..];
      assert Concat(rest) == rest[0] + Concat(rest[1..]);
      assert first == text[..|first|];
      forall i: nat
        ensures !MatchesAt(first, phrase, i)
      {
        if i == 0 && MatchesAt(first, phrase, 0) {
          PrefixMatch(first, text, phrase);
        } else if i > 0 && MatchesAt(first, phrase, i) {
          ShiftedMatch(text[0], rest[0], phrase, i - 1);
        }
      }
      forall k | 0 <= k < |parts| && k % 2 == 0
        ensures NoMatch(parts[k], phrase)
      {
        if k >= 1 {
          assert parts[k] == rest[k];
        }
      }
    }
  }

  /** No occurrence of the phrase starts in `s` before position `n`. */
  predicate NoMatchBefore(s: string, phrase: string, n: nat) {
    forall i :: 0 <= i < n ==> !MatchesAt(s, phrase, i)
  }

  /**
   * The split takes the leftmost occurrence each time: from the start of a gap on, no occurrence
   * starts inside the gap, not even one that overlaps the match kept after it (so "banana" split
   * around "ana" keeps the first "ana").
   */
  lemma {:induction false} SplitIsLeftmost(text: string, phrase: string)
    requires phrase != []
    ensures forall k :: 0 <= k < |SplitKeeping(text, phrase)| && k % 2 == 0 ==>
      NoMatchBefore(Concat(SplitKeeping(text, phrase)[k..]), phrase, |SplitKeeping(text, phrase)[k]|)
    decreases |text|
  {
    var parts := SplitKeeping(text, phrase);
    if text == [] {
      assert parts == [""];
    } else if MatchesAt(text, phrase, 0) {
      var rest := SplitKeeping(text[|phrase|..], phrase);
      SplitIsLeftmost(text[|phrase|..], phrase);
      assert parts == [""] + [text[..|phrase|]] + rest;
      forall k | 0 <= k < |parts| && k % 2 == 0
        ensures NoMatchBefore(Concat(parts[k..]), phrase, |parts[k]|)
      {
        if k >= 2 {
          assert parts[k..] == rest[k - 2..];
          assert parts[k] == rest[k - 2];
        }
      }
    } else {
      var rest := SplitKeeping(text[1..], phrase);
      SplitIsLeftmost(text[1..], phrase);
      assert parts == [[text[0]] + rest[0]] + rest[1..];
      assert rest[0..] == rest;
      assert parts[0..] == parts;
      assert [text[0]] + text[1..] == text;
      forall i | 0 <= i < |parts[0]|
        ensures !MatchesAt(text, phrase, i)
      {
        if i > 0 {
          assert NoMatchBefore(Concat(rest[0..]), phrase, |rest[0]|);
          ShiftedMatchIff(text[0], text[1..], phrase, i - 1);
        }
      }
      forall k | 0 <= k < |parts| && k % 2 == 0
        ensures NoMatchBefore(Concat(parts[k..]), phrase, |parts[k]|)
      {
        if k >= 1 {
          assert parts[k..] == rest[k..];
          assert parts[k] == rest[k];
        }
      }
    }
  }

  /** A line in which the phrase does not occur is not split at all. */
  lemma {:induction false} SplitWithoutMatch(text: string, phrase: string)
    requires phrase != [] && NoMatch(text, phrase)
    ensures SplitKeeping(text, phrase) == [text]
    decreases |text|
  {
    if text != [] {
      assert !MatchesAt(text, phrase, 0);
      forall i: nat
        ensures !MatchesAt(text[1..], phrase, i)
      {
        if MatchesAt(text[1..], phrase, i) {
          assert [text[0]] + text[1..] == text;
          forall j | 0 <= j < |phrase|
            ensures LowerChar(text[i + 1 + j]) == LowerChar(phrase[j])
          {
            assert text[i + 1 + j] == text[1..][i + j];
          }
          assert MatchesAt(text, phrase, i + 1);
        }
      }
      SplitWithoutMatch(text[1..], phrase);
      assert [text[0]] + text[1..] == text;
    }
  }

  /** `a.toLowerCase() === b.toLowerCase()` with ASCII case folding is a match of the whole string. */
  lemma LowerEqualIsWholeMatch(s: string, phrase: string)
    ensures Lower(s) == Lower(phrase) <==> |s| == |phrase| && MatchesAt(s, phrase, 0)
  {
    if |s| == |phrase| && MatchesAt(s, phrase, 0) {
      assert forall j :: 0 <= j < |s| ==> Lower(s)[j] == Lower(phrase)[j];
    }
    if Lower(s) == Lower(phrase) {
      assert |s| == |Lower(s)| == |Lower(phrase)| == |phrase|;
      forall j | 0 <= j < |phrase|
        ensures LowerChar(s[0 + j]) == LowerChar(phrase[j])
      {
        assert Lower(s)[j] == Lower(phrase)[j];
      }
    }
  }

  /** One rendered `<span>`: its text and whether it carries the highlight class. */
  datatype Span = Span(text: string, highlighted: bool)

  /** The texts of the spans, in order. */
  function Texts(spans: seq<Span>): (texts: seq<string>)
    ensures |texts| == |spans|
    ensures forall k :: 0 <= k < |spans| ==> texts[k] == spans[k].text
  {
    seq(|spans|, k requires 0 <= k < |spans| => spans[k].text)
  }

  /** `parts.map(part => part.toLowerCase() === matchPhrase.toLowerCase() ? highlighted : plain)`. */
  function Spans(line: string, phrase: string): seq<Span>
    requires phrase != []
  {
    var parts := SplitKeeping(line, phrase);
    seq(|parts|, k requires 0 <= k < |parts| => Span(parts[k], Lower(parts[k]) == Lower(phrase)))
  }

  /**
   * The English line of verse `verseIndex`. `line` is None when the English array has no entry
   * for this index; the result is None when the source then calls `split` on `undefined`.
   */
  function RenderEnglish(line: Option<string>, verseIndex: int, hoveredWord: Option<string>,
                         hoveredVerse: Option<int>, aiData: AnnotationMap): Option<seq<Span>>
  {
    if hoveredVerse == Some(verseIndex) && hoveredWord.Some? && hoveredWord.value != ""
       && hoveredWord.value in aiData && aiData[hoveredWord.value].englishMatch != "" then
      if line.None? then None else Some(Spans(line.value, aiData[hoveredWord.value].englishMatch))
    else
      Some([Span(line.GetOr(""), false)])
  }

  /** The spans put back together give the line; a span is highlighted exactly when it is a captured match. */
  lemma SpansPartitionLine(line: string, phrase: string)
    requires phrase != []
    ensures Concat(Texts(Spans(line, phrase))) == line
    ensures |Spans(line, phrase)| % 2 == 1
    ensures forall k :: 0 <= k < |Spans(line, phrase)| ==>
      (Spans(line, phrase)[k].highlighted <==> k % 2 == 1)
  {
    var parts := SplitKeeping(line, phrase);
    var spans := Spans(line, phrase);
    assert Texts(spans) == parts;
    SplitGapsHaveNoMatch(line, phrase);
    forall k | 0 <= k < |spans|
      ensures spans[k].highlighted <==> k % 2 == 1
    {
      LowerEqualIsWholeMatch(parts[k], phrase);
      if k % 2 == 0 {
        assert !MatchesAt(parts[k], phrase, 0);
      }
    }
  }

  /** A highlighted span equals the phrase up to case; no two highlighted spans are adjacent. */
  lemma HighlightedSpansMatchPhrase(line: string, phrase: string)
    requires phrase != []
    ensures forall k :: 0 <= k < |Spans(line, phrase)| && Spans(line, phrase)[k].highlighted ==>
      Lower(Spans(line, phrase)[k].text) == Lower(phrase)
    ensures forall k :: 0 <= k < |Spans(line, phrase)| - 1 ==>
      !(Spans(line, phrase)[k].highlighted && Spans(line, phrase)[k + 1].highlighted)
  {
    SpansPartitionLine(line, phrase);
  }

  /** Without a hovered word of this verse that has a non-empty English match, the line is one plain span. */
  lemma RenderWithoutHighlight(line: string, verseIndex: int, hoveredWord: Option<string>,
                               hoveredVerse: Option<int>, aiData: AnnotationMap)
    requires hoveredVerse != Some(verseIndex) || hoveredWord.None? || hoveredWord == Some("")
             || hoveredWord.value !in aiData
             || aiData[hoveredWord.value].englishMatch == ""
    ensures RenderEnglish(Some(line), verseIndex, hoveredWord, hoveredVerse, aiData) == Some([Span(line, false)])
  {
  }

  /** A phrase that does not occur in the line leaves it as one plain span even while hovered. */
  lemma RenderWithoutOccurrence(line: string, phrase: string)
    requires phrase != [] && NoMatch(line, phrase)
    ensures Spans(line, phrase) == [Span(line, false)]
  {
    SplitWithoutMatch(line, phrase);
    LowerEqualIsWholeMatch(line, phrase);
  }
}
