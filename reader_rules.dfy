/** The small value-level rules of the reader in App.tsx: chapters, font size, history, cards, verses and words. */
module ReaderRules {
  import opened Wrappers
  import opened Types
  import opened Text
  import opened Constants

  // ---------------------------------------------------------------- chapters

  /** The chapter count used when a book is not in `BIBLE_DATA`. */
  const DefaultChapters: nat := 50

  /** `BIBLE_DATA[book] || 50`. */
  function MaxChapters(book: string): (r: nat)
    ensures r >= 1
    ensures book in BibleData ==> r == BibleData[book]
    ensures book !in BibleData ==> r == DefaultChapters
  {
    ChapterCountsPositive();
    if book in BibleData && BibleData[book] != 0 then BibleData[book] else DefaultChapters
  }

  datatype Direction = Next | Prev

  /** `handleChapterNav`: the chapter to move to, or None when the button is at its end. */
  function NavTarget(chapter: int, max: int, dir: Direction): Option<int> {
    match dir
    case Next => if chapter >= max then None else Some(chapter + 1)
    case Prev => if chapter <= 1 then None else Some(chapter - 1)
  }

  /** Navigation moves by one inside `1..max` and refuses exactly at the ends. */
  lemma NavStaysInRange(chapter: int, max: int, dir: Direction)
    requires 1 <= chapter <= max
    ensures NavTarget(chapter, max, dir).None? <==>
      (dir == Next && chapter == max) || (dir == Prev && chapter == 1)
    ensures NavTarget(chapter, max, dir).Some? ==>
      1 <= NavTarget(chapter, max, dir).value <= max
      && NavTarget(chapter, max, dir).value == (if dir == Next then chapter + 1 else chapter - 1)
  {
  }

  /** Next then back returns to the same chapter. */
  lemma NavRoundTrip(chapter: int, max: int)
    requires 1 <= chapter < max
    ensures NavTarget(chapter, max, Next) == Some(chapter + 1)
    ensures NavTarget(chapter + 1, max, Prev) == Some(chapter)
  {
  }

  /** The book/chapter effect: a chapter beyond the book's end goes back to 1 (not to the last chapter). */
  function ClampChapter(chapter: int, max: int): int {
    if chapter > max then 1 else chapter
  }

  /** After the effect the chapter lies in `1..max`; a chapter already there is kept; applying it twice changes nothing. */
  lemma ClampChapterInRange(chapter: int, max: int)
    requires chapter >= 1 && max >= 1
    ensures 1 <= ClampChapter(chapter, max) <= max
    ensures chapter <= max ==> ClampChapter(chapter, max) == chapter
    ensures chapter > max ==> ClampChapter(chapter, max) == 1
    ensures ClampChapter(ClampChapter(chapter, max), max) == ClampChapter(chapter, max)
  {
  }

  // ---------------------------------------------------------------- font size

  /** `cycleFontSize`: `(fontSizeLevel + 1) % 3` with JavaScript's remainder. */
  function NextFontSize(level: int): int {
    JsRemainder(level + 1, 3)
  }

  /** From any level the cycle can reach, the next level is one of 0, 1, 2 and differs from it; three steps come back. */
  lemma FontSizeCycles(level: int)
    requires 0 <= level < 3
    ensures 0 <= NextFontSize(level) < 3 && NextFontSize(level) != level
    ensures NextFontSize(NextFontSize(NextFontSize(level))) == level
  {
  }

  /** A stored level out of range but not negative is brought back into range by one step. */
  lemma FontSizeRecovers(level: int)
    requires level >= -1
    ensures 0 <= NextFontSize(level) < 3
  {
  }

  // ---------------------------------------------------------------- word history

  const HistoryLimit: nat := 10

  /** `xs.slice(0, n)`. */
  function Take<T>(xs: seq<T>, n: nat): (r: seq<T>)
    ensures |r| == if |xs| <= n then |xs| else n
    ensures r == xs[..|r|]
  {
    if |xs| <= n then xs else xs[..n]
  }

  /** The history update of `handleWordClick`: unchanged if the head has the same text, else the word in front, cut to 10. */
  function PushHistory(history: seq<WordData>, word: WordData): seq<WordData> {
    if |history| > 0 && history[0].text == word.text then history
    else Take([word] + history, HistoryLimit)
  }

  /** After a click the head carries the clicked text, the list keeps at most 10 entries, and the rest is the old list's front. */
  lemma PushHistoryShape(history: seq<WordData>, word: WordData)
    requires |history| <= HistoryLimit
    ensures var r := PushHistory(history, word);
      1 <= |r| <= HistoryLimit && r[0].text == word.text
    ensures |history| > 0 && history[0].text == word.text ==> PushHistory(history, word) == history
    ensures !(|history| > 0 && history[0].text == word.text) ==>
      var r := PushHistory(history, word);
      r[0] == word && |r| == (if |history| < HistoryLimit then |history| + 1 else HistoryLimit)
      && r[1..] == history[..|r| - 1]
  {
    var r := PushHistory(history, word);
    if !(|history| > 0 && history[0].text == word.text) {
      assert r == ([word] + history)[..|r|];
      assert r[1..] == history[..|r| - 1];
    }
  }

  /** Clicking the same word twice records it once. */
  lemma PushHistoryIdempotent(history: seq<WordData>, word: WordData)
    ensures PushHistory(PushHistory(history, word), word) == PushHistory(history, word)
  {
    var r := PushHistory(history, word);
    if !(|history| > 0 && history[0].text == word.text) {
      assert r[0] == word;
    }
  }

  // ---------------------------------------------------------------- saved cards

  /** `xs.filter(p)`. */
  function Filter<T(!new)>(xs: seq<T>, p: T -> bool): (r: seq<T>)
    ensures |r| <= |xs|
    ensures forall x :: x in r <==> x in xs && p(x)
  {
    if xs == [] then []
    else if p(xs[0]) then [xs[0]] + Filter(xs[1..], p)
    else Filter(xs[1..], p)
  }

  /** Filtering a joined list filters each part and keeps them in order. */
  lemma {:induction false} FilterAppend<T(!new)>(a: seq<T>, b: seq<T>, p: T -> bool)
    ensures Filter(a + b, p) == Filter(a, p) + Filter(b, p)
    decreases |a|
  {
    if a != [] {
      assert (a + b)[0] == a[0] && (a + b)[1..] == a[1..] + b;
      FilterAppend(a[1..], b, p);
    } else {
      assert a + b == b;
    }
  }

  /** A one-element list keeps its element exactly when it passes. */
  lemma FilterSingle<T(!new)>(x: T, p: T -> bool)
    ensures Filter([x], p) == if p(x) then [x] else []
  {
    assert [x][1..] == [];
  }

  /** Filtering with a test every element passes keeps the list as it is. */
  lemma {:induction false} FilterKeepsAll<T(!new)>(xs: seq<T>, p: T -> bool)
    requires forall x :: x in xs ==> p(x)
    ensures Filter(xs, p) == xs
  {
    if xs != [] {
      assert forall x :: x in xs[1..] ==> x in xs;
      FilterKeepsAll(xs[1..], p);
    }
  }

  /** `handleSaveCard`: the new card goes in front. */
  function SaveCard(cards: seq<SavedCard>, card: SavedCard): (r: seq<SavedCard>)
    ensures |r| == |cards| + 1 && r[0] == card && r[1..] == cards
  {
    [card] + cards
  }

  predicate HasOtherId(id: string, c: SavedCard) {
    c.id != id
  }

  /** The confirmed branch of `handleDeleteCard`: `cards.filter(c => c.id !== id)`. */
  function DeleteCard(cards: seq<SavedCard>, id: string): (r: seq<SavedCard>)
    ensures forall c :: c in r <==> c in cards && c.id != id
    ensures |r| <= |cards|
  {
    Filter(cards, c => HasOtherId(id, c))
  }

  /**
   * Deleting works card by card and keeps the survivors in saved order, repeats included: the
   * deletion of a joined list is the joined deletions, and one card stays exactly when its id differs.
   */
  lemma DeleteCardKeepsOrder(a: seq<SavedCard>, b: seq<SavedCard>, c: SavedCard, id: string)
    ensures DeleteCard(a + b, id) == DeleteCard(a, id) + DeleteCard(b, id)
    ensures DeleteCard([c], id) == if c.id != id then [c] else []
  {
    FilterAppend(a, b, c => HasOtherId(id, c));
    FilterSingle(c, c => HasOtherId(id, c));
  }

  /** Deleting a card just saved under an id no other card has gives the list back as it was. */
  lemma SaveThenDelete(cards: seq<SavedCard>, card: SavedCard)
    requires forall c :: c in cards ==> c.id != card.id
    ensures DeleteCard(SaveCard(cards, card), card.id) == cards
  {
    var p := c => HasOtherId(card.id, c);
    FilterKeepsAll(cards, p);
    assert SaveCard(cards, card)[1..] == cards;
  }

  predicate InBook(book: string, c: SavedCard) {
    c.book == book
  }

  /** `filteredCards`: the saved cards of the selected book, in saved order. */
  function CardsOfBook(cards: seq<SavedCard>, book: string): (r: seq<SavedCard>)
    ensures forall c :: c in r <==> c in cards && c.book == book
  {
    Filter(cards, c => InBook(book, c))
  }

  /** The archive of a book keeps the saved order, repeats included: it is taken card by card. */
  lemma CardsOfBookKeepsOrder(a: seq<SavedCard>, b: seq<SavedCard>, c: SavedCard, book: string)
    ensures CardsOfBook(a + b, book) == CardsOfBook(a, book) + CardsOfBook(b, book)
    ensures CardsOfBook([c], book) == if c.book == book then [c] else []
  {
    FilterAppend(a, b, c => InBook(book, c));
    FilterSingle(c, c => InBook(book, c));
  }

  /** A new card shows up in the archive of its own book, in front. */
  lemma SavedCardHeadsItsBook(cards: seq<SavedCard>, card: SavedCard)
    ensures CardsOfBook(SaveCard(cards, card), card.book) == [card] + CardsOfBook(cards, card.book)
  {
    assert SaveCard(cards, card)[1..] == cards;
  }

  // ---------------------------------------------------------------- verses

  /** `Array.isArray(field) ? field : [field]`. */
  function Lines(field: VerseField): (r: seq<string>)
    ensures field.Single? ==> r == [field.line]
    ensures field.PerVerse? ==> r == field.lines
  {
    match field
    case Single(line) => [line]
    case PerVerse(lines) => lines
  }

  /** A single string and a one-element array are shown alike. */
  lemma LinesNormalise(line: string)
    ensures Lines(Single(line)) == Lines(PerVerse([line]))
    ensures |Lines(Single(line))| == 1
  {
  }

  /** `hebrewVerses`: no reply gives no verses. */
  function HebrewVerses(data: Option<ScriptureResponse>): seq<string> {
    if data.None? then [] else Lines(data.value.he)
  }

  /** `englishVerses`. */
  function EnglishVerses(data: Option<ScriptureResponse>): seq<string> {
    if data.None? then [] else Lines(data.value.text)
  }

  /** `englishVerses[idx]?.replace(/<[^>]*>?/gm, '')`: None where the English array has no entry. */
  function EnglishLine(data: Option<ScriptureResponse>, idx: nat): (r: Option<string>)
    ensures r.Some? <==> idx < |EnglishVerses(data)|
    ensures r.Some? ==> '<' !in r.value
  {
    var verses := EnglishVerses(data);
    if idx < |verses| then
      StripTagsRemovesOpenings(verses[idx]);
      Some(StripTags(verses[idx]))
    else None
  }

  /** A reply with one string per field shows one verse whose English line exists. */
  lemma SingleVerseReply(data: ScriptureResponse)
    requires data.he.Single? && data.text.Single?
    ensures HebrewVerses(Some(data)) == [data.he.line]
    ensures EnglishLine(Some(data), 0) == Some(StripTags(data.text.line))
  {
  }

  /** The verse index given to the words of row `idx`: `activeRef.verse ? activeRef.verse - 1 : idx` (0 stands for no verse). */
  function WordVerseIndex(activeVerse: nat, idx: nat): (r: int)
    ensures activeVerse == 0 ==> r == idx
    ensures activeVerse > 0 ==> r + 1 == activeVerse
  {
    if activeVerse != 0 then activeVerse - 1 else idx
  }

  // ---------------------------------------------------------------- Hebrew words

  predicate NonEmpty(w: string) {
    w != ""
  }

  /** Each split piece with its tags stripped. */
  function StrippedWords(words: seq<string>): (r: seq<string>)
    ensures |r| == |words|
    ensures forall k :: 0 <= k < |words| ==> r[k] == StripTags(words[k])
  {
    seq(|words|, k requires 0 <= k < |words| => StripTags(words[k]))
  }

  /**
   * The words `renderHebrewVerse` shows: the verse split on every space, tags stripped from each
   * piece, empty pieces skipped; an empty verse shows nothing.
   */
  function Tokens(text: string): seq<string> {
    if text == "" then [] else Filter(StrippedWords(Split(text, ' ')), NonEmpty)
  }

  /** Every shown word is non-empty and holds no space and no `<`. */
  lemma TokensAreClean(text: string)
    ensures forall t :: t in Tokens(text) ==> t != "" && ' ' !in t && '<' !in t
  {
    if text != "" {
      var parts := Split(text, ' ');
      var stripped := StrippedWords(parts);
      SplitPartsLackSeparator(text, ' ');
      forall t | t in Tokens(text)
        ensures t != "" && ' ' !in t && '<' !in t
      {
        var k :| 0 <= k < |stripped| && stripped[k] == t;
        StripTagsRemovesOpenings(parts[k]);
        StripTagsKeepsOwnChars(parts[k]);
      }
    }
  }

  /** A verse without markup and with single spaces between words is shown word for word, and joining the words gives it back. */
  lemma TokensOfPlainVerse(text: string)
    requires text != "" && '<' !in text
    requires forall k :: 0 <= k < |Split(text, ' ')| ==> Split(text, ' ')[k] != ""
    ensures Tokens(text) == Split(text, ' ')
    ensures Join(Tokens(text), ' ') == text
  {
    var parts := Split(text, ' ');
    SplitPartsWithin(text, ' ');
    forall k | 0 <= k < |parts|
      ensures StrippedWords(parts)[k] == parts[k]
    {
      StripTagsKeepsPlainText(parts[k]);
    }
    assert StrippedWords(parts) == parts;
    FilterKeepsAll(parts, NonEmpty);
    JoinSplit(text, ' ');
  }

  /** The verse text of a tag `<name attr>` around a word, with its closing tag. */
  function TaggedWord(name: string, attr: string, word: string): string {
    ['<'] + name + [' '] + attr + ['>'] + word + ['<', '/'] + name + ['>']
  }

  lemma TaggedWordSplit(name: string, attr: string, word: string)
    requires ' ' !in name && ' ' !in attr && ' ' !in word
    ensures Split(TaggedWord(name, attr, word), ' ')
         == [['<'] + name, attr + ['>'] + word + (['<', '/'] + name + ['>'])]
  {
    var head := ['<'] + name;
    var tail := attr + ['>'] + word + (['<', '/'] + name + ['>']);
    assert TaggedWord(name, attr, word) == head + [' '] + tail;
    SplitAtFirstSeparator(head, tail, ' ');
    SplitWithoutSeparator(tail, ' ');
  }

  lemma ClosingTagStrip(name: string)
    requires '>' !in name
    ensures StripTags(['<', '/'] + name + ['>']) == ""
  {
    assert ['<', '/'] + name + ['>'] == ['<'] + (['/'] + name) + ['>'] + [];
    StripTagsOfTag(['/'] + name, []);
  }

  lemma TaggedWordStrip(name: string, attr: string, word: string)
    requires '>' !in name && '<' !in attr && '<' !in word
    ensures StripTags(attr + ['>'] + word + (['<', '/'] + name + ['>'])) == attr + ['>'] + word
  {
    var shown := attr + ['>'] + word;
    StripTagsPlainPrefix(shown, ['<', '/'] + name + ['>']);
    ClosingTagStrip(name);
    assert shown + [] == shown;
  }

  /**
   * A tag with an attribute is cut by the space split: the opening piece vanishes, but the
   * attribute and the `>` after it stay in the shown word, in front of the word itself.
   */
  lemma TagAttributeLeaks(name: string, attr: string, word: string)
    requires ' ' !in name && '>' !in name
    requires ' ' !in attr && '<' !in attr
    requires ' ' !in word && '<' !in word
    ensures Tokens(TaggedWord(name, attr, word)) == [attr + ['>'] + word]
  {
    var head := ['<'] + name;
    var shown := attr + ['>'] + word;
    var tail := shown + (['<', '/'] + name + ['>']);
    assert TaggedWord(name, attr, word)[0] == '<';
    TaggedWordSplit(name, attr, word);
    StripTagsOfUnclosed(name);
    TaggedWordStrip(name, attr, word);
    var stripped := StrippedWords([head, tail]);
    assert stripped[0] == "" && stripped[1] == shown;
    assert stripped == ["", shown];
    assert !NonEmpty("") && NonEmpty(shown);
    assert stripped[1..] == [shown] && [shown][1..] == [];
    assert Filter(stripped, NonEmpty) == Filter([shown], NonEmpty);
    assert Filter([shown], NonEmpty) == [shown] + Filter([], NonEmpty);
  }
}
