/**
 * The letter pipeline that WordBreakdownPanel.tsx, ExportPreviewModal.tsx and the hover popup
 * of App.tsx each spell out: keep the letters of the block U+05D0..U+05EA, normalise final
 * forms through `SOFIT_MAP`, look each letter up in `DEFAULT_HEBREW_MAP` and drop misses.
 */
module Letters {
  import opened Wrappers
  import opened Types
  import opened Constants

  /** `getCleanHebrew`: `text.replace(/[^א-ת]/g, "")`. */
  function CleanHebrew(s: string): (r: string)
    ensures forall c :: c in r ==> InLetterBlock(c)
    ensures |r| <= |s|
  {
    if s == [] then []
    else (if InLetterBlock(s[0]) then [s[0]] else []) + CleanHebrew(s[1..])
  }

  /** Cleaning distributes over concatenation: it keeps letters in their order and drops the rest. */
  lemma {:induction false} CleanHebrewAppend(a: string, b: string)
    ensures CleanHebrew(a + b) == CleanHebrew(a) + CleanHebrew(b)
  {
    if a == [] {
      assert a + b == b;
    } else {
      assert (a + b)[1..] == a[1..] + b;
      CleanHebrewAppend(a[1..], b);
    }
  }

  /** A string of letters is its own clean form. */
  lemma {:induction false} CleanHebrewKeepsLetters(s: string)
    requires forall c :: c in s ==> InLetterBlock(c)
    ensures CleanHebrew(s) == s
  {
    if s != [] {
      assert s[0] in s;
      assert forall c :: c in s[1..] ==> c in s;
      CleanHebrewKeepsLetters(s[1..]);
    }
  }

  /** A string without letters cleans to the empty string. */
  lemma {:induction false} CleanHebrewDropsOthers(s: string)
    requires forall c :: c in s ==> !InLetterBlock(c)
    ensures CleanHebrew(s) == ""
  {
    if s != [] {
      assert s[0] in s;
      assert forall c :: c in s[1..] ==> c in s;
      CleanHebrewDropsOthers(s[1..]);
    }
  }

  /** Cleaning twice is cleaning once. */
  lemma CleanHebrewIdempotent(s: string)
    ensures CleanHebrew(CleanHebrew(s)) == CleanHebrew(s)
  {
    CleanHebrewKeepsLetters(CleanHebrew(s));
  }

  /** `SOFIT_MAP[char] || char`: a final form becomes its base letter, anything else stays. */
  function RootLetter(c: char): char {
    if c in SofitMap then SofitMap[c] else c
  }

  /** `DEFAULT_HEBREW_MAP[root]` for one character. */
  function Lookup(c: char): Option<LetterDefinition> {
    var root := RootLetter(c);
    if root in DefaultHebrewMap then Some(DefaultHebrewMap[root]) else None
  }

  /** A character has a table entry exactly when it lies in the letter block; the entry is its base letter's. */
  lemma LookupCoversBlock(c: char)
    ensures Lookup(c).Some? <==> InLetterBlock(c)
    ensures Lookup(c).Some? ==> Lookup(c).value.letter == RootLetter(c) && RootLetter(c) in Alphabet
  {
    LetterBlockCovered(c);
    FinalFormsShape();
    LetterTableShape();
    if c !in SofitMap && c in DefaultHebrewMap {
      assert RootLetter(c) == c;
    }
  }

  /** `.map(...)`: the lookup of every character. */
  function Lookups(s: string): (r: seq<Option<LetterDefinition>>)
    ensures |r| == |s|
  {
    seq(|s|, i requires 0 <= i < |s| => Lookup(s[i]))
  }

  /** `.filter(Boolean)`: the present values, in order. */
  function Present<T>(xs: seq<Option<T>>): seq<T> {
    if xs == [] then []
    else (if xs[0].Some? then [xs[0].value] else []) + Present(xs[1..])
  }

  /** `getLetterBreakdown(cleanWord)`. */
  function LetterBreakdown(cleanWord: string): seq<LetterDefinition> {
    Present(Lookups(cleanWord))
  }

  /** The breakdown shown for a word: `getLetterBreakdown(getCleanHebrew(text))`. */
  function WordBreakdown(word: string): seq<LetterDefinition> {
    LetterBreakdown(CleanHebrew(word))
  }

  lemma LookupsTail(s: string)
    requires s != []
    ensures Lookups(s) == [Lookup(s[0])] + Lookups(s[1..])
  {
  }

  /**
   * For a cleaned word the filter drops nothing: one entry per letter, in order,
   * each the entry of the letter's base form.
   */
  lemma {:induction false} BreakdownOfLetters(s: string)
    requires forall c :: c in s ==> InLetterBlock(c)
    ensures |LetterBreakdown(s)| == |s|
    ensures forall i :: 0 <= i < |s| ==>
      RootLetter(s[i]) in DefaultHebrewMap && LetterBreakdown(s)[i] == DefaultHebrewMap[RootLetter(s[i])]
  {
    if s != [] {
      var c := s[0];
      assert c in s;
      SingleLetterBreakdown(c);
      assert forall x :: x in s[1..] ==> x in s;
      BreakdownOfLetters(s[1..]);
      assert s == [c] + s[1..];
      LetterBreakdownAppend([c], s[1..]);
      var r, later := LetterBreakdown(s), LetterBreakdown(s[1..]);
      assert r == [DefaultHebrewMap[RootLetter(c)]] + later;
      forall i | 0 <= i < |s|
        ensures RootLetter(s[i]) in DefaultHebrewMap && r[i] == DefaultHebrewMap[RootLetter(s[i])]
      {
        if i > 0 {
          assert s[i] == s[1..][i - 1] && r[i] == later[i - 1];
        }
      }
    }
  }

  /** A single letter breaks down to its base letter's entry. */
  lemma SingleLetterBreakdown(c: char)
    requires InLetterBlock(c)
    ensures RootLetter(c) in DefaultHebrewMap && LetterBreakdown([c]) == [DefaultHebrewMap[RootLetter(c)]]
  {
    LookupCoversBlock(c);
    var entry := DefaultHebrewMap[RootLetter(c)];
    assert Lookups([c]) == [Some(entry)];
    assert Present([Some(entry)]) == [entry] + Present([Some(entry)][1..]);
    assert [Some(entry)][1..] == [];
  }

  /** The filter alone already discards non-letters: breaking down a raw string equals breaking down its clean form. */
  lemma {:induction false} BreakdownIgnoresNonLetters(s: string)
    ensures LetterBreakdown(s) == LetterBreakdown(CleanHebrew(s))
  {
    if s != [] {
      LookupsTail(s);
      LookupCoversBlock(s[0]);
      BreakdownIgnoresNonLetters(s[1..]);
      if InLetterBlock(s[0]) {
        LookupsTail(CleanHebrew(s));
        assert CleanHebrew(s) == [s[0]] + CleanHebrew(s[1..]);
        assert CleanHebrew(s)[1..] == CleanHebrew(s[1..]);
      } else {
        assert CleanHebrew(s) == CleanHebrew(s[1..]);
      }
    }
  }

  /** Separators and vowel points do not change a word's breakdown. */
  lemma WordBreakdownOfStripped(word: string)
    ensures WordBreakdown(word) == WordBreakdown(CleanHebrew(word))
    ensures |WordBreakdown(word)| == |CleanHebrew(word)|
  {
    CleanHebrewIdempotent(word);
    BreakdownOfLetters(CleanHebrew(word));
  }

  /** A separator or vowel point between two parts of a word does not change its breakdown. */
  lemma SeparatorIgnored(a: string, sep: char, b: string)
    requires !InLetterBlock(sep)
    ensures WordBreakdown(a + [sep] + b) == WordBreakdown(a + b)
  {
    CleanHebrewAppend(a + [sep], b);
    CleanHebrewAppend(a, [sep]);
    CleanHebrewAppend(a, b);
    assert [sep][1..] == [];
    assert CleanHebrew([sep]) == [];
    assert CleanHebrew(a) + [] == CleanHebrew(a);
  }

  lemma {:induction false} PresentAppend<T>(xs: seq<Option<T>>, ys: seq<Option<T>>)
    ensures Present(xs + ys) == Present(xs) + Present(ys)
  {
    if xs == [] {
      assert xs + ys == ys;
    } else {
      var head := if xs[0].Some? then [xs[0].value] else [];
      assert (xs + ys)[0] == xs[0];
      assert (xs + ys)[1..] == xs[1..] + ys;
      assert Present(xs + ys) == head + Present(xs[1..] + ys);
      PresentAppend(xs[1..], ys);
      assert head + (Present(xs[1..]) + Present(ys)) == (head + Present(xs[1..])) + Present(ys);
    }
  }

  /** Breaking down two strings one after the other is breaking down their concatenation. */
  lemma LetterBreakdownAppend(x: string, y: string)
    ensures LetterBreakdown(x + y) == LetterBreakdown(x) + LetterBreakdown(y)
  {
    assert Lookups(x + y) == Lookups(x) + Lookups(y);
    PresentAppend(Lookups(x), Lookups(y));
  }

  /** A final form at the end of a word is shown as its base letter's entry. */
  lemma FinalFormShownAsBase(word: string, f: char)
    requires f in SofitMap
    ensures WordBreakdown(word + [f]) == WordBreakdown(word) + [DefaultHebrewMap[SofitMap[f]]]
  {
    FinalFormTarget(f);
    LetterBlockCovered(f);
    CleanHebrewAppend(word, [f]);
    assert [f][1..] == [];
    assert CleanHebrew([f]) == [f];
    LetterBreakdownAppend(CleanHebrew(word), [f]);
    var entry := DefaultHebrewMap[SofitMap[f]];
    assert Lookup(f) == Some(entry);
    assert Lookups([f]) == [Some(entry)];
    assert Present([Some(entry)]) == [entry] + Present([Some(entry)][1..]);
    assert [Some(entry)][1..] == [];
    assert LetterBreakdown([f]) == [entry];
  }

  /** One element of the hover popup's letter sequence (App.tsx): a letter card or the arrow between cards. */
  datatype PopupItem = LetterCard(emoji: string, letter: char) | Arrow

  /**
   * The hover popup's letter sequence: a card per cleaned letter (its base letter's emoji, the
   * letter as written) with an arrow after every card but the last. It agrees with the breakdown.
   */
  method HoverCards(word: string) returns (items: seq<PopupItem>)
    ensures var letters := CleanHebrew(word);
      && |WordBreakdown(word)| == |letters|
      && (letters == [] ==> items == [])
      && (letters != [] ==> |items| == 2 * |letters| - 1)
      && (forall k :: 0 <= k < |letters| ==> items[2 * k] == LetterCard(WordBreakdown(word)[k].emoji, letters[k]))
      && (forall k :: 0 <= k < |letters| - 1 ==> items[2 * k + 1] == Arrow)
  {
    var letters := CleanHebrew(word);
    BreakdownOfLetters(letters);
    ghost var breakdown := WordBreakdown(word);
    items := [];
    var index := 0;
    while index < |letters|
      invariant 0 <= index <= |letters|
      invariant index == 0 ==> items == []
      invariant 0 < index < |letters| ==> |items| == 2 * index
      invariant 0 < index == |letters| ==> |items| == 2 * index - 1
      invariant forall k :: 0 <= k < index ==> items[2 * k] == LetterCard(breakdown[k].emoji, letters[k])
      invariant forall k :: 0 <= k < index && k < |letters| - 1 ==> items[2 * k + 1] == Arrow
    {
      var c := letters[index];
      var root := RootLetter(c);
      if root in DefaultHebrewMap {
        items := items + [LetterCard(DefaultHebrewMap[root].emoji, c)];
        if index < |letters| - 1 {
          items := items + [Arrow];
        }
      }
      index := index + 1;
    }
  }
}
