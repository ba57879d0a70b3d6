/**
 * The reader's state (App.tsx) as one object: the scan lock, annotation cache and per-verse
 * statuses, the book/chapter/verse selection and the loaded reply, the clicked and hovered words,
 * the word history, the saved cards and the font size.
 */
module AppState {
  import opened Wrappers
  import opened Types
  import opened Text
  import opened Constants
  import opened Letters
  import opened Fences
  import opened RetryLoop
  import opened Highlight
  import opened ReaderRules
  import opened WordPanel

  // ---------------------------------------------------------------- scan rules

  /** `{ ...prev, ...verseData }`: the parsed entries win, every other key keeps its value. */
  function Merge(prev: AnnotationMap, parsed: AnnotationMap): (r: AnnotationMap)
    ensures r.Keys == prev.Keys + parsed.Keys
    ensures forall k :: k in parsed ==> r[k] == parsed[k]
    ensures forall k :: k in prev && k !in parsed ==> r[k] == prev[k]
  {
    prev + parsed
  }

  /**
   * What a scan ends with: the parsed map when some attempt answered and `JSON.parse` accepted the
   * reply with its code fences stripped, None when the third attempt threw or parsing failed.
   */
  function ScanOutcome(respond: nat -> Reply, parse: string -> Option<AnnotationMap>): Option<AnnotationMap> {
    var r := Retry(respond);
    if r.raw.None? then None else parse(StripFences(r.raw.value))
  }

  /** Three thrown calls end the scan in failure. */
  lemma ScanFailsAfterThreeThrows(respond: nat -> Reply, parse: string -> Option<AnnotationMap>)
    requires forall k :: 0 <= k < MaxAttempts ==> respond(k).Threw?
    ensures ScanOutcome(respond, parse).None?
  {
    RetryGivesUpOnlyAfterThreeFailures(respond);
  }

  /** An empty answer (`response.text || ""`) fails too, because `JSON.parse("")` throws. */
  lemma ScanFailsOnEmptyAnswer(respond: nat -> Reply, parse: string -> Option<AnnotationMap>, k: nat)
    requires parse("") == None
    requires k < MaxAttempts && respond(k) == Answered("")
    requires forall j :: 0 <= j < k ==> respond(j).Threw?
    ensures ScanOutcome(respond, parse).None?
  {
    RetryKeepsFirstAnswer(respond, k);
    StripFencesOfEmpty();
  }

  /** A first answer that is a `json` code block is parsed without its fences. */
  lemma ScanParsesFencedAnswer(respond: nat -> Reply, parse: string -> Option<AnnotationMap>, k: nat, body: string)
    requires CleanBody(body)
    requires k < MaxAttempts && respond(k) == Answered("```json\n" + body + "\n```")
    requires forall j :: 0 <= j < k ==> respond(j).Threw?
    ensures ScanOutcome(respond, parse) == parse(body)
  {
    RetryKeepsFirstAnswer(respond, k);
    StripFencesOfJsonBlock(body);
  }

  /**
   * The selected word after a successful scan of verse `v`: the word selected when the scan started
   * (`captured`), carrying its new analysis, if it belonged to verse `v` and the parsed map has its
   * exact text; otherwise whatever is selected now.
   */
  function RefreshedSelection(current: Option<WordData>, captured: Option<WordData>, v: int, parsed: AnnotationMap): (r: Option<WordData>)
    ensures (captured.Some? && captured.value.verseIndex == v && captured.value.text in parsed) ==>
      r == Some(captured.value.(aiDefinition := Some(parsed[captured.value.text])))
    ensures !(captured.Some? && captured.value.verseIndex == v && captured.value.text in parsed) ==> r == current
  {
    if captured.Some? && captured.value.verseIndex == v && captured.value.text in parsed then
      Some(captured.value.(aiDefinition := Some(parsed[captured.value.text])))
    else current
  }

  /**
   * When the refresh applies, the selection becomes what a click on the same word would select
   * once the reply is merged into the cache.
   */
  lemma RefreshMatchesFreshClick(current: Option<WordData>, w: WordData, v: int, prevAi: AnnotationMap, parsed: AnnotationMap)
    requires w.verseIndex == v && w.text in parsed && w.cleanText == CleanHebrew(w.text)
    ensures RefreshedSelection(current, Some(w), v, parsed)
         == Some(WordData(w.text, CleanHebrew(w.text), v, Some(Merge(prevAi, parsed)[w.text])))
  {
  }

  /**
   * The state a finished scan of verse `v` leaves, from the cache, statuses and selection it found:
   * on a parsed reply the merge, `complete` and the refreshed selection; otherwise `error` and
   * nothing else changed.
   */
  predicate ScanEffect(outcome: Option<AnnotationMap>, v: int, captured: Option<WordData>,
                       prevAi: AnnotationMap, prevStatuses: map<int, ScanStatus>, prevSelected: Option<WordData>,
                       ai: AnnotationMap, statuses: map<int, ScanStatus>, selected: Option<WordData>)
  {
    match outcome
    case Some(parsed) =>
      ai == Merge(prevAi, parsed) && statuses == prevStatuses[v := Complete]
      && selected == RefreshedSelection(prevSelected, captured, v, parsed)
    case None =>
      ai == prevAi && statuses == prevStatuses[v := Error] && selected == prevSelected
  }

  /** The `scanning` mark set at the start is overwritten by the final status; the others stay as found. */
  lemma ScanEffectOverwritesMark(outcome: Option<AnnotationMap>, v: int, captured: Option<WordData>,
                                 prevAi: AnnotationMap, prevStatuses: map<int, ScanStatus>, prevSelected: Option<WordData>,
                                 ai: AnnotationMap, statuses: map<int, ScanStatus>, selected: Option<WordData>)
    requires ScanEffect(outcome, v, captured, prevAi, prevStatuses[v := Scanning], prevSelected, ai, statuses, selected)
    ensures statuses.Keys == prevStatuses.Keys + {v}
    ensures statuses[v] == (if outcome.Some? then Complete else Error)
    ensures forall k :: k in prevStatuses && k != v ==> statuses[k] == prevStatuses[k]
  {
  }

  /** The status a word's verse shows in the panel: the entry under the word's verse index, else idle. */
  function StatusFor(statuses: map<int, ScanStatus>, selected: Option<WordData>): ScanStatus {
    if selected.None? then Idle
    else StatusOrIdle(if selected.value.verseIndex in statuses then Some(statuses[selected.value.verseIndex]) else None)
  }

  // ---------------------------------------------------------------- single-verse view

  /**
   * In a single-verse view of verse 2 or later, the scan button of row 0 files its status under 0
   * while the row's words carry index `verse - 1`: after a completed scan, a clicked word the
   * reply did not cover reads "Scan verse to unlock." instead of "Word not found in AI map.".
   */
  lemma SingleVerseStatusMismatch(statuses: map<int, ScanStatus>, activeVerse: nat, w: WordData)
    requires activeVerse >= 2 && activeVerse - 1 !in statuses
    requires w.verseIndex == WordVerseIndex(activeVerse, 0) && w.aiDefinition.None?
    ensures StatusFor(statuses[0 := Complete], Some(w)) == Idle
    ensures Panel(Some(w), StatusFor(statuses[0 := Complete], Some(w))).definition == "Scan verse to unlock."
  {
  }

  /** In the same view a word selected during the scan of row 0 is never refreshed with its new analysis. */
  lemma SingleVerseSelectionNotRefreshed(current: Option<WordData>, w: WordData, activeVerse: nat, parsed: AnnotationMap)
    requires activeVerse >= 2 && w.verseIndex == WordVerseIndex(activeVerse, 0)
    ensures RefreshedSelection(current, Some(w), 0, parsed) == current
  {
  }

  /** And hovering its words never highlights the English line, which is rendered under row index 0. */
  lemma SingleVerseNeverHighlights(line: Option<string>, activeVerse: nat, word: string, aiData: AnnotationMap)
    requires activeVerse >= 2
    ensures RenderEnglish(line, 0, Some(word), Some(WordVerseIndex(activeVerse, 0)), aiData) == Some([Span(line.GetOr(""), false)])
  {
  }

  /** In a chapter view a hovered word with an English match highlights its own row. */
  lemma ChapterViewHighlights(line: string, idx: nat, word: string, aiData: AnnotationMap)
    requires word != "" && word in aiData && aiData[word].englishMatch != ""
    ensures RenderEnglish(Some(line), idx, Some(word), Some(WordVerseIndex(0, idx)), aiData)
      == Some(Spans(line, aiData[word].englishMatch))
  {
  }

  // ---------------------------------------------------------------- the hover popup

  /** The hover popup: the letter sequence and, for an annotated word, its English match (or "Analysis") and definition. */
  datatype Popup = Popup(items: seq<PopupItem>, footer: Option<(string, string)>)

  /** The popup footer of `handleWordHover`. */
  function PopupFooter(aiData: AnnotationMap, word: string): (r: Option<(string, string)>)
    ensures r.Some? <==> word in aiData
    ensures r.Some? ==> r.value.1 == aiData[word].definition
    ensures r.Some? && aiData[word].englishMatch == "" ==> r.value.0 == "Analysis"
    ensures r.Some? && aiData[word].englishMatch != "" ==> r.value.0 == aiData[word].englishMatch
  {
    if word in aiData then
      Some((if aiData[word].englishMatch != "" then aiData[word].englishMatch else "Analysis", aiData[word].definition))
    else None
  }

  /** The popup title is never empty: an entry without English match is titled "Analysis". */
  lemma PopupFooterTitleNonEmpty(aiData: AnnotationMap, word: string)
    ensures PopupFooter(aiData, word).Some? ==> PopupFooter(aiData, word).value.0 != ""
  {
  }

  /** Hovering a word with an English match titles the popup with the phrase the English line highlights. */
  lemma FooterTitleIsHighlightedPhrase(line: string, v: int, word: string, aiData: AnnotationMap)
    requires word != "" && word in aiData && aiData[word].englishMatch != ""
    ensures PopupFooter(aiData, word).Some?
    ensures RenderEnglish(Some(line), v, Some(word), Some(v), aiData) == Some(Spans(line, PopupFooter(aiData, word).value.0))
  {
  }

  /** Where a fetch goes (`activeRef`): book, chapter and verse, 0 standing for the whole chapter. */
  datatype Target = Target(book: string, chapter: int, verse: nat)

  // ---------------------------------------------------------------- the reader

  class App {
    /** `window.IS_SCANNING`: at most one scan in flight. */
    var isScanning: bool
    /** `window.VERSE_DATA`, kept equal to `aiData`. */
    var verseData: AnnotationMap
    var aiData: AnnotationMap
    var scanStatuses: map<int, ScanStatus>
    var selectedBook: string
    var selectedChapter: int
    /** The verse picker; 0 is the empty choice. */
    var selectedVerse: nat
    var activeRef: Target
    var loading: bool
    var scriptureData: Option<ScriptureResponse>
    var history: seq<WordData>
    var savedCards: seq<SavedCard>
    var hoveredWord: Option<string>
    var hoveredVerse: Option<int>
    var selectedWord: Option<WordData>
    var journalNote: string
    var fontSizeLevel: int
    var exportOpen: bool

    /** The cache and its window copy agree, the history holds at most 10 words, and the font level is 0, 1 or 2. */
    ghost predicate Valid()
      reads this
    {
      verseData == aiData && |history| <= HistoryLimit && 0 <= fontSizeLevel < 3
    }

    /** The initial state: Genesis 1, nothing loaded, nothing selected, smallest font. */
    constructor()
      ensures Valid()
      ensures !isScanning && aiData == map[] && scanStatuses == map[]
      ensures selectedBook == "Genesis" && selectedChapter == 1 && selectedVerse == 0
      ensures activeRef == Target("Genesis", 1, 0) && !loading && scriptureData.None?
      ensures history == [] && savedCards == [] && selectedWord.None? && journalNote == ""
      ensures hoveredWord.None? && hoveredVerse.None? && fontSizeLevel == 0 && !exportOpen
    {
      isScanning := false;
      verseData := map[];
      aiData := map[];
      scanStatuses := map[];
      selectedBook := "Genesis";
      selectedChapter := 1;
      selectedVerse := 0;
      activeRef := Target("Genesis", 1, 0);
      loading := false;
      scriptureData := None;
      history := [];
      savedCards := [];
      hoveredWord := None;
      hoveredVerse := None;
      selectedWord := None;
      journalNote := "";
      fontSizeLevel := 0;
      exportOpen := false;
    }

    // ------------------------------------------------------------ views

    /** `filteredCards`. */
    function FilteredCards(): (r: seq<SavedCard>)
      reads this
      ensures forall c :: c in r <==> c in savedCards && c.book == selectedBook
      ensures r == CardsOfBook(savedCards, selectedBook)
    {
      CardsOfBook(savedCards, selectedBook)
    }

    /** The `verseScanStatus` handed to the word panel. */
    function PanelStatus(): ScanStatus
      reads this
    {
      StatusFor(scanStatuses, selectedWord)
    }

    /** The word panel as currently shown. */
    function PanelNow(): PanelView
      reads this
    {
      Panel(selectedWord, PanelStatus())
    }

    /**
     * The words of row `idx` and the verse index they are clicked and hovered with: the row's
     * tokens (none past the last verse), each clean, under the row index in a chapter view and
     * under `verse - 1` in a single-verse view.
     */
    function RowWords(idx: nat): (r: (seq<string>, int))
      reads this
      ensures idx < |HebrewVerses(scriptureData)| ==> r.0 == Tokens(HebrewVerses(scriptureData)[idx])
      ensures idx >= |HebrewVerses(scriptureData)| ==> r.0 == []
      ensures forall t :: t in r.0 ==> t != "" && ' ' !in t && '<' !in t
      ensures activeRef.verse == 0 ==> r.1 == idx
      ensures activeRef.verse > 0 ==> r.1 + 1 == activeRef.verse
    {
      var verses := HebrewVerses(scriptureData);
      if idx < |verses| then
        TokensAreClean(verses[idx]);
        (Tokens(verses[idx]), WordVerseIndex(activeRef.verse, idx))
      else ([], WordVerseIndex(activeRef.verse, idx))
    }

    // ------------------------------------------------------------ scanning

    /**
     * The synchronous start of `scanVerse`: refused while another scan holds the lock, refused
     * with an alert without an API key; otherwise the lock is taken and the verse marked scanning.
     */
    method BeginScan(verseIndex: int, hasApiKey: bool) returns (started: bool, alerted: bool)
      modifies this`isScanning, this`scanStatuses
      ensures started <==> !old(isScanning) && hasApiKey
      ensures alerted <==> !old(isScanning) && !hasApiKey
      ensures started ==> isScanning && scanStatuses == old(scanStatuses)[verseIndex := Scanning]
      ensures !started ==> isScanning == old(isScanning) && scanStatuses == old(scanStatuses)
    {
      started, alerted := false, false;
      if isScanning {
        return;
      }
      if !hasApiKey {
        alerted := true;
        return;
      }
      isScanning := true;
      scanStatuses := scanStatuses[verseIndex := Scanning];
      started := true;
    }

    /**
     * The part of `scanVerse` after the generator is called: the retry loop, the fence stripping
     * and parse, then either the merge, the `complete` status and the refresh of the word selected
     * at the start (`captured`), or the `error` status; the lock is released in every case.
     */
    method FinishScan(verseIndex: int, captured: Option<WordData>, respond: nat -> Reply,
                      parse: string -> Option<AnnotationMap>) returns (calls: nat, waits: seq<int>)
      requires Valid()
      modifies this`isScanning, this`scanStatuses, this`verseData, this`aiData, this`selectedWord
      ensures Valid()
      ensures calls == Retry(respond).calls && waits == Retry(respond).waits
      ensures !isScanning
      ensures ScanEffect(ScanOutcome(respond, parse), verseIndex, captured,
                         old(aiData), old(scanStatuses), old(selectedWord), aiData, scanStatuses, selectedWord)
    {
      var raw;
      raw, calls, waits := RunAttempts(respond);
      var outcome := if raw.None? then None else parse(StripFences(raw.value));
      if outcome.Some? {
        var parsed := outcome.value;
        verseData := Merge(verseData, parsed);
        aiData := Merge(aiData, parsed);
        scanStatuses := scanStatuses[verseIndex := Complete];
        selectedWord := RefreshedSelection(selectedWord, captured, verseIndex, parsed);
      } else {
        scanStatuses := scanStatuses[verseIndex := Error];
      }
      isScanning := false;
    }

    /** `scanVerse` run to the end without anything in between; the captured word is the one selected at the call. */
    method ScanVerse(verseIndex: int, hasApiKey: bool, respond: nat -> Reply, parse: string -> Option<AnnotationMap>)
      returns (started: bool, alerted: bool, calls: nat, waits: seq<int>)
      requires Valid()
      modifies this`isScanning, this`scanStatuses, this`verseData, this`aiData, this`selectedWord
      ensures Valid()
      ensures started <==> !old(isScanning) && hasApiKey
      ensures alerted <==> !old(isScanning) && !hasApiKey
      ensures !started ==> (calls == 0 && waits == [] && isScanning == old(isScanning)
        && scanStatuses == old(scanStatuses) && aiData == old(aiData) && selectedWord == old(selectedWord))
      ensures started ==> !isScanning && calls == Retry(respond).calls && waits == Retry(respond).waits
      ensures started ==> ScanEffect(ScanOutcome(respond, parse), verseIndex, old(selectedWord),
                                     old(aiData), old(scanStatuses)[verseIndex := Scanning], old(selectedWord),
                                     aiData, scanStatuses, selectedWord)
    {
      var captured := selectedWord;
      calls, waits := 0, [];
      started, alerted := BeginScan(verseIndex, hasApiKey);
      if started {
        calls, waits := FinishScan(verseIndex, captured, respond, parse);
      }
    }

    // ------------------------------------------------------------ loading a passage

    /**
     * The synchronous start of `fetchScripture`: the reply is dropped, the cache and statuses
     * emptied, the lock forced off; the target takes an override only when it is non-empty / non-zero.
     */
    method BeginFetch(overrideBook: string, overrideChapter: int) returns (target: Target)
      requires Valid()
      modifies this`loading, this`scriptureData, this`aiData, this`verseData, this`scanStatuses, this`isScanning
      ensures Valid()
      ensures loading && scriptureData.None? && aiData == map[] && scanStatuses == map[] && !isScanning
      ensures target.book == (if overrideBook != "" then overrideBook else selectedBook)
      ensures target.chapter == (if overrideChapter != 0 then overrideChapter else selectedChapter)
      ensures target.verse == selectedVerse
    {
      loading := true;
      scriptureData := None;
      aiData := map[];
      scanStatuses := map[];
      verseData := map[];
      isScanning := false;
      target := Target(if overrideBook != "" then overrideBook else selectedBook,
                       if overrideChapter != 0 then overrideChapter else selectedChapter,
                       selectedVerse);
    }

    /** The end of `fetchScripture`: a reply is shown under its target; a failed request leaves the view empty. */
    method FinishFetch(target: Target, reply: Option<ScriptureResponse>)
      modifies this`loading, this`scriptureData, this`activeRef
      ensures !loading
      ensures reply.Some? ==> scriptureData == reply && activeRef == target
      ensures reply.None? ==> scriptureData == old(scriptureData) && activeRef == old(activeRef)
    {
      if reply.Some? {
        scriptureData := reply;
        activeRef := target;
      }
      loading := false;
    }

    /** `fetchScripture` run to the end. */
    method FetchScripture(overrideBook: string, overrideChapter: int, reply: Option<ScriptureResponse>)
      returns (target: Target)
      requires Valid()
      modifies this`loading, this`scriptureData, this`aiData, this`verseData, this`scanStatuses, this`isScanning, this`activeRef
      ensures Valid()
      ensures !loading && aiData == map[] && scanStatuses == map[] && !isScanning
      ensures target == Target(if overrideBook != "" then overrideBook else old(selectedBook),
                               if overrideChapter != 0 then overrideChapter else old(selectedChapter),
                               old(selectedVerse))
      ensures scriptureData == reply
      ensures reply.Some? ==> activeRef == target
      ensures reply.None? ==> activeRef == old(activeRef)
    {
      target := BeginFetch(overrideBook, overrideChapter);
      FinishFetch(target, reply);
    }

    // ------------------------------------------------------------ selection

    /** The effect on a book or chapter change: a chapter past the book's end becomes 1 and the verse choice is cleared. */
    method ChapterEffect()
      modifies this`selectedChapter, this`selectedVerse
      ensures selectedChapter == ClampChapter(old(selectedChapter), MaxChapters(selectedBook))
      ensures selectedVerse == 0
    {
      selectedChapter := ClampChapter(selectedChapter, MaxChapters(selectedBook));
      selectedVerse := 0;
    }

    /** Picking a book; the effect runs when the book changes. */
    method SelectBook(book: string)
      modifies this`selectedBook, this`selectedChapter, this`selectedVerse
      ensures selectedBook == book
      ensures book != old(selectedBook) ==>
        selectedChapter == ClampChapter(old(selectedChapter), MaxChapters(book)) && selectedVerse == 0
      ensures book == old(selectedBook) ==> selectedChapter == old(selectedChapter) && selectedVerse == old(selectedVerse)
    {
      var changed := book != selectedBook;
      selectedBook := book;
      if changed {
        ChapterEffect();
      }
    }

    /** Picking a chapter; the effect runs when the chapter changes. */
    method SelectChapter(chapter: int)
      modifies this`selectedChapter, this`selectedVerse
      ensures chapter != old(selectedChapter) ==>
        selectedChapter == ClampChapter(chapter, MaxChapters(selectedBook)) && selectedVerse == 0
      ensures chapter == old(selectedChapter) ==> selectedChapter == old(selectedChapter) && selectedVerse == old(selectedVerse)
    {
      var changed := chapter != selectedChapter;
      selectedChapter := chapter;
      if changed {
        ChapterEffect();
      }
    }

    /** Picking a verse (0: the empty choice); no effect depends on it. */
    method SelectVerse(verse: nat)
      modifies this`selectedVerse
      ensures selectedVerse == verse
    {
      selectedVerse := verse;
    }

    /**
     * `handleChapterNav`: at the end of the range nothing happens; otherwise the chapter moves by
     * one and that chapter is fetched, with the verse choice still in place when the fetch reads it;
     * the effect then clears the verse choice.
     */
    method ChapterNav(dir: Direction, reply: Option<ScriptureResponse>) returns (moved: bool)
      requires Valid()
      modifies this`selectedChapter, this`selectedVerse, this`loading, this`scriptureData, this`aiData,
               this`verseData, this`scanStatuses, this`isScanning, this`activeRef
      ensures Valid()
      ensures moved <==> NavTarget(old(selectedChapter), MaxChapters(selectedBook), dir).Some?
      ensures !moved ==> (selectedChapter == old(selectedChapter) && selectedVerse == old(selectedVerse)
        && aiData == old(aiData) && scanStatuses == old(scanStatuses) && activeRef == old(activeRef)
        && scriptureData == old(scriptureData) && isScanning == old(isScanning) && loading == old(loading))
      ensures moved ==>
        var next := NavTarget(old(selectedChapter), MaxChapters(selectedBook), dir).value;
        selectedChapter == ClampChapter(next, MaxChapters(selectedBook)) && selectedVerse == 0
        && aiData == map[] && scanStatuses == map[] && !isScanning && !loading && scriptureData == reply
        && (reply.Some? ==> activeRef == Target(selectedBook, if next != 0 then next else old(selectedChapter), old(selectedVerse)))
        && (reply.None? ==> activeRef == old(activeRef))
    {
      var target := NavTarget(selectedChapter, MaxChapters(selectedBook), dir);
      if target.None? {
        return false;
      }
      var next := target.value;
      var fetched := FetchScripture(selectedBook, next, reply);
      var changed := next != selectedChapter;
      selectedChapter := next;
      if changed {
        ChapterEffect();
      }
      moved := true;
    }

    // ------------------------------------------------------------ words

    /**
     * `handleWordClick`: the word is selected with the cached analysis of its exact text, pushed on
     * the history, and its stored note (None: nothing stored) fills the journal.
     */
    method WordClick(word: string, verseIndex: int, storedNote: Option<string>)
      requires Valid()
      modifies this`selectedWord, this`history, this`journalNote
      ensures Valid()
      ensures var w := WordData(word, CleanHebrew(word), verseIndex,
                                if word in aiData then Some(aiData[word]) else None);
        selectedWord == Some(w) && history == PushHistory(old(history), w)
      ensures journalNote == storedNote.GetOr("")
      ensures |history| >= 1 && history[0].text == word
    {
      var entry := if word in aiData then Some(aiData[word]) else None;
      var w := WordData(word, CleanHebrew(word), verseIndex, entry);
      selectedWord := Some(w);
      PushHistoryShape(history, w);
      history := PushHistory(history, w);
      journalNote := storedNote.GetOr("");
    }

    /** `handleNoteChange`: the journal text follows the input. */
    method NoteChange(text: string)
      modifies this`journalNote
      ensures journalNote == text
    {
      journalNote := text;
    }

    /**
     * `handleWordHover`: nothing when hovering is off (or on a touch or small screen); otherwise the
     * word and its verse become the hovered pair, and the popup (when the page has one and the word
     * has Hebrew letters) shows the letter sequence and the annotation footer.
     */
    method WordHover(word: string, verseIndex: int, hoverAllowed: bool, hasPopup: bool) returns (popup: Option<Popup>)
      modifies this`hoveredWord, this`hoveredVerse
      ensures !hoverAllowed ==> popup.None? && hoveredWord == old(hoveredWord) && hoveredVerse == old(hoveredVerse)
      ensures hoverAllowed ==> hoveredWord == Some(word) && hoveredVerse == Some(verseIndex)
      ensures popup.Some? <==> hoverAllowed && hasPopup && CleanHebrew(word) != []
      ensures popup.Some? ==>
        |popup.value.items| == 2 * |CleanHebrew(word)| - 1
        && |WordBreakdown(word)| == |CleanHebrew(word)|
        && (forall k :: 0 <= k < |CleanHebrew(word)| ==>
              popup.value.items[2 * k] == LetterCard(WordBreakdown(word)[k].emoji, CleanHebrew(word)[k]))
        && (forall k :: 0 <= k < |CleanHebrew(word)| - 1 ==> popup.value.items[2 * k + 1] == Arrow)
        && popup.value.footer == PopupFooter(aiData, word)
    {
      popup := None;
      if !hoverAllowed {
        return;
      }
      hoveredWord := Some(word);
      hoveredVerse := Some(verseIndex);
      if !hasPopup || CleanHebrew(word) == [] {
        return;
      }
      var items := HoverCards(word);
      popup := Some(Popup(items, PopupFooter(aiData, word)));
    }

    /** `handleWordLeave`: nothing is hovered any more. */
    method WordLeave()
      modifies this`hoveredWord, this`hoveredVerse
      ensures hoveredWord.None? && hoveredVerse.None?
    {
      hoveredWord := None;
      hoveredVerse := None;
    }

    // ------------------------------------------------------------ cards and settings

    /** `handleSaveCard`. */
    method SaveNewCard(card: SavedCard)
      modifies this`savedCards
      ensures savedCards == SaveCard(old(savedCards), card)
    {
      savedCards := SaveCard(savedCards, card);
    }

    /** `handleDeleteCard`: only a confirmed delete removes the cards with that id. */
    method DeleteSavedCard(id: string, confirmed: bool)
      modifies this`savedCards
      ensures confirmed ==> savedCards == DeleteCard(old(savedCards), id)
      ensures !confirmed ==> savedCards == old(savedCards)
    {
      if confirmed {
        savedCards := DeleteCard(savedCards, id);
      }
    }

    /**
     * `handleRestoreCard`: the card's book, chapter, verse, word and note come back and the designer
     * opens; the book/chapter effect runs when either changed.
     */
    method RestoreCard(card: SavedCard)
      modifies this`selectedBook, this`selectedChapter, this`selectedVerse, this`activeRef,
               this`selectedWord, this`journalNote, this`exportOpen
      ensures selectedBook == card.book && selectedWord == Some(card.wordData) && journalNote == card.note && exportOpen
      ensures activeRef == Target(card.book, card.chapter, if card.verse > 0 then card.verse else 0)
      ensures (card.book != old(selectedBook) || card.chapter != old(selectedChapter)) ==>
        selectedChapter == ClampChapter(card.chapter, MaxChapters(card.book)) && selectedVerse == 0
      ensures (card.book == old(selectedBook) && card.chapter == old(selectedChapter)) ==>
        selectedChapter == card.chapter && selectedVerse == old(selectedVerse)
    {
      var changed := card.book != selectedBook || card.chapter != selectedChapter;
      selectedBook := card.book;
      selectedChapter := card.chapter;
      activeRef := Target(card.book, card.chapter, if card.verse > 0 then card.verse else 0);
      selectedWord := Some(card.wordData);
      journalNote := card.note;
      exportOpen := true;
      if changed {
        ChapterEffect();
      }
    }

    /** `cycleFontSize`. */
    method CycleFontSize()
      requires Valid()
      modifies this`fontSizeLevel
      ensures Valid()
      ensures fontSizeLevel == NextFontSize(old(fontSizeLevel)) && fontSizeLevel != old(fontSizeLevel)
    {
      FontSizeCycles(fontSizeLevel);
      fontSizeLevel := NextFontSize(fontSizeLevel);
    }
  }

  // ---------------------------------------------------------------- scenarios

  /**
   * A reload while a scan is in flight: the reload forces the lock off, a second scan starts, and
   * when the first scan finishes it releases the lock the second one holds, and its reply lands in
   * the cache of the newly loaded passage.
   */
  method ReloadDuringScan(entry: Annotation, reply: ScriptureResponse)
    returns (secondStarted: bool, lockAfterFirst: bool, cacheAfterFirst: AnnotationMap)
    ensures secondStarted && !lockAfterFirst
    ensures cacheAfterFirst == map["בראשית" := entry]
  {
    var app := new App();
    var started, alerted := app.BeginScan(0, true);
    var target := app.FetchScripture("", 0, Some(reply));
    secondStarted, alerted := app.BeginScan(1, true);
    var respond := (k: nat) => Answered("{}");
    var parse := (s: string) => Some(map["בראשית" := entry]);
    RetryKeepsFirstAnswer(respond, 0);
    var calls, waits := app.FinishScan(0, None, respond, parse);
    lockAfterFirst := app.isScanning;
    cacheAfterFirst := app.aiData;
  }

  /**
   * A word clicked while a scan is in flight is replaced when the scan ends: the scan refreshes the
   * word selected when it started (`first`), so the later click on `second` is lost.
   */
  method ClickDuringScan(first: string, second: string, entry: Annotation, reply: ScriptureResponse)
    returns (clicked: Option<WordData>, shown: Option<WordData>)
    ensures clicked.Some? && clicked.value.text == second
    ensures shown == Some(WordData(first, CleanHebrew(first), 0, Some(entry)))
  {
    var app := new App();
    var target := app.FetchScripture("", 0, Some(reply));
    app.WordClick(first, 0, None);
    var captured := app.selectedWord;
    var started, alerted := app.BeginScan(0, true);
    app.WordClick(second, 0, None);
    clicked := app.selectedWord;
    var respond := (k: nat) => Answered("{}");
    var parse := (s: string) => Some(map[first := entry]);
    RetryKeepsFirstAnswer(respond, 0);
    var calls, waits := app.FinishScan(0, captured, respond, parse);
    shown := app.selectedWord;
  }

  /**
   * A chapter view after a successful scan of row 0: clicking an annotated word of that row selects
   * it with its analysis, and the panel shows that analysis.
   */
  method ClickAfterScan(word: string, entry: Annotation, reply: ScriptureResponse) returns (shown: PanelView)
    ensures shown.definition == entry.definition && shown.root == entry.root && shown.showsRoot
  {
    var app := new App();
    var target := app.FetchScripture("", 0, Some(reply));
    var respond := (k: nat) => Answered("{}");
    var parsed := map[word := entry];
    var parse := (s: string) => Some(parsed);
    RetryKeepsFirstAnswer(respond, 0);
    var started, alerted, calls, waits := app.ScanVerse(0, true, respond, parse);
    assert app.aiData == Merge(map[], parsed);
    app.WordClick(word, WordVerseIndex(app.activeRef.verse, 0), None);
    shown := app.PanelNow();
  }
}
