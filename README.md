# Genesis reader: a Dafny model

The Genesis app is a Bible-study reader. It shows a chapter (or one verse) of the Hebrew text with
its English translation. The reader clicks a Hebrew word to open its letter-by-letter pictograph
breakdown and a journal note. A verse can be "scanned": a text generator is asked for a
word-by-word analysis (definition, English match, root, morphology, reflection). The answer is
cached per word, and it highlights the matching English phrase when the word is hovered. A word
can be turned into a design card and downloaded as an image, and cards are kept in a saved list.

This project models the reader's core logic and proves properties of it:

- **`AppState`** (`app.dfy`): the reader's state as a class `App`, with these operations:
  - the verse-scan state machine, split at its `await` into `BeginScan` and `FinishScan` so that a
    reload can come in between, and run whole as `ScanVerse`:
    - the single-flight lock and the API-key check;
    - three attempts with growing waits;
    - code-fence stripping and parsing;
    - the last-write-wins merge and the per-verse status;
    - the refresh of the selected word;
  - the passage load and its reset;
  - book, chapter and verse selection, the chapter arrows and the effect that clamps the chapter;
  - word click, history, journal note, hover and leave;
  - saving, deleting and restoring cards;
  - the font-size cycle.
- **`RetryLoop`** (`retry.dfy`): the retry loop. `Retry` is a function that specifies it, and
  `RunAttempts` is a `while` loop proved against it.
- **`Fences`** (`fences.dfy`): the three code-fence replacements applied before parsing.
- **`Letters`** (`letters.dfy`): the Hebrew-letter pipeline that three files share:
  - cleaning to the block U+05D0..U+05EA;
  - normalising the final forms;
  - the table lookup;
  - the hover popup's letter cards.
- **`ReaderRules`** (`reader_rules.dfy`):
  - chapter navigation and the clamp;
  - the history, the saved-card list and the font cycle;
  - normalising a verse field that is either one string or an array;
  - splitting a Hebrew verse into words.
- **`Highlight`** (`highlight.dfy`): splitting an English line around a phrase, case-insensitively,
  for highlighting.
- **`WordPanel`** (`word_panel.dfy`): the word panel's choice of definition, morphology, root and
  placeholders, driven by the verse's scan status.
- **`ExportPreview`** (`export_preview.dfy`): the card designer, as a pure card composition and a
  class `ExportModal`:
  - the six module toggles;
  - section visibility and fallback texts;
  - the letter tiles;
  - the file name;
  - the busy flag of the download.
- **`Constants`** (`constants.dfy`): the constant tables of `constants.ts` and the facts the code
  relies on:
  - the letter table covers the whole letter block;
  - the final forms map into it;
  - gematria values increase in alphabet order;
  - the book list is the key list of the chapter table;
  - the letter dictionary agrees with the letter table.
- **`Text`** (`text.dfy`): the string primitives behind the models of JavaScript operations:
  - `split` on one character and its inverse `Join`;
  - the tag-stripping regular expression `/<[^>]*>?/gm`;
  - ASCII case mapping;
  - JavaScript's `%`.
- **`Types`** and **`Wrappers`**: the records of `types.ts`, and `Option`.

The model takes these as parameters:

- **The text generator:** `respond(k)` is the reply to call `k`, either a thrown error or a text.
- **`JSON.parse`:** a function `parse` from text to an optional word map. The one fact used about
  it is that it rejects `""`.
- **The scripture request:** its reply is an `Option`.
- **Browser capabilities and the confirm dialog:** hover allowed, the popup element, the
  preview node, the renderer, and `window.confirm` are booleans.
- **Waits:** recorded as the list of delays in milliseconds.

A missing optional field of an analysis is the empty string. The source reads every such field
with `||`, so a missing field and an empty one behave alike. The empty verse choice `''` is `0`.

The model keeps several behaviours of the code that read as accidental:

- **Single-verse view:** the scan button of row 0 files its status under index 0, but the row's
  words carry index `verse - 1`. So the panel's placeholder and the scan refresh miss each other,
  and hovering never highlights (`SingleVerseStatusMismatch`, `SingleVerseSelectionNotRefreshed`,
  `SingleVerseNeverHighlights`).
- **Reload during a scan:** a reload forces the lock off, so a second scan can start. The first
  scan's `finally` then releases the second one's lock, and its reply lands in the new passage's
  cache (`ReloadDuringScan`).
- **Click during a scan:** the refresh at the end of a scan works on the word selected when the
  scan started. A word clicked while the scan runs is replaced by that earlier word, with its new
  analysis, when it belongs to the scanned verse and the reply (`ClickDuringScan`).
- **Tags with attributes:** the verse is split on spaces before tags are stripped, so an attribute
  of a tag leaks into the shown word (`TagAttributeLeaks`).

## Model

| member | source | states |
|---|---|---|
| AppState.Merge | App.tsx:253-254 | the merged cache has the old and the parsed keys; parsed entries win, other keys keep their value |
| AppState.RefreshMatchesFreshClick | App.tsx:257-262 | when the refresh applies, the selection becomes what clicking the same word would select once the reply is merged into the cache |
| AppState.ScanFailsAfterThreeThrows | App.tsx:228-249 | three thrown generator calls end the scan without a parsed map |
| AppState.ScanFailsOnEmptyAnswer | App.tsx:238-252 | an empty answer (`response.text \|\| ""`) fails the scan because parsing `""` fails |
| AppState.ScanParsesFencedAnswer | App.tsx:238-252 | a first answer that is a `json` code block is parsed exactly without its fences |
| AppState.ScanEffectOverwritesMark | App.tsx:205-268 | the `scanning` mark is replaced by `complete` (parsed) or `error`; every other verse's status is unchanged and no status is dropped |
| AppState.PopupFooterTitleNonEmpty | App.tsx:350-353 | the popup title is never empty |
| AppState.FooterTitleIsHighlightedPhrase | App.tsx:350-411 | hovering a word with an English match titles the popup with the very phrase the English line highlights |
| AppState.SingleVerseStatusMismatch | App.tsx:551 | in a single-verse view of verse 2 or later, a completed scan of row 0 still leaves an uncovered clicked word reading "Scan verse to unlock." |
| AppState.SingleVerseSelectionNotRefreshed | App.tsx:551 | in that view a word selected during the scan of row 0 is never refreshed |
| AppState.SingleVerseNeverHighlights | App.tsx:551 | in that view hovering a word of the row never highlights the English line |
| AppState.ChapterViewHighlights | App.tsx:399-411 | in a chapter view a hovered annotated word highlights its own row by its English match |
| AppState.App.constructor | App.tsx:42-80 | the initial state: Genesis 1, no verse, empty cache, statuses, history and cards, lock off, smallest font |
| AppState.App.FilteredCards | App.tsx:428 | a card is listed iff it is saved and belongs to the selected book; the list is the saved list filtered by book, so it keeps the saved order (ReaderRules.CardsOfBookKeepsOrder) |
| AppState.App.RowWords | App.tsx:551 | a row's words are the tokens of its Hebrew verse (none past the last verse), each non-empty, without spaces or tags; they are clicked with the row index in a chapter view and with `verse - 1` in a single-verse view |
| AppState.App.BeginScan | App.tsx:198-206 | a scan starts iff the lock is free and a key is set; the alert is raised iff the lock is free and the key is missing; a started scan holds the lock and marks the verse `scanning`, a refused one changes nothing |
| AppState.App.FinishScan | App.tsx:228-268 | makes exactly the calls and waits of the retry specification, leaves the scan effect (merge, `complete` and refresh, or `error` alone), releases the lock, and keeps the window copy equal to the cache |
| AppState.App.ScanVerse | App.tsx:197-269 | a refused scan changes nothing and calls nothing; a started scan ends with the lock off, the retry specification's calls and waits, and the scan effect on the state it began with |
| AppState.App.BeginFetch | App.tsx:272-281 | the reply is dropped, the cache, window copy and statuses emptied, the lock forced off; the target takes an override only when it is non-empty or non-zero |
| AppState.App.FinishFetch | App.tsx:285-293 | a reply is shown under its target; a failed request leaves reply and reference as they were; loading ends either way |
| AppState.App.FetchScripture | App.tsx:271-294 | the whole load: reset, target, reply shown, reference moved only on success, loading off |
| AppState.App.ChapterEffect | App.tsx:132-138 | the chapter becomes the book's clamp of the old chapter and the verse choice is cleared |
| AppState.App.SelectBook | App.tsx:469 | the book is set; the effect runs exactly when the book changed |
| AppState.App.SelectChapter | App.tsx:479 | the chapter is set; the effect runs exactly when the chapter changed |
| AppState.App.SelectVerse | App.tsx:488 | the verse choice is set |
| AppState.App.ChapterNav | App.tsx:296-303 | the view moves iff the arrow is not at its end; then the next chapter is loaded with the old verse choice (a failed load keeps the shown passage), loading ends and the effect clears the verse choice; otherwise nothing changes, the scan lock and the loading flag included |
| AppState.App.WordClick | App.tsx:305-316 | the word is selected with its cleaned text and cached analysis, pushed on the history, and its stored note fills the journal |
| AppState.App.NoteChange | App.tsx:318-321 | the journal follows the input |
| AppState.App.WordHover | App.tsx:327-364 | nothing when hovering is off; otherwise the hovered pair is set; a popup exists iff the page has one and the word has letters, with one card per letter carrying its base letter's emoji, an arrow between neighbouring cards, and the annotation footer |
| AppState.App.WordLeave | App.tsx:366-369 | nothing is hovered any more |
| AppState.App.SaveNewCard | App.tsx:170-172 | the card is prepended to the saved list |
| AppState.App.DeleteSavedCard | App.tsx:174-179 | only a confirmed delete removes the cards with that id |
| AppState.App.RestoreCard | App.tsx:181-188 | book, chapter, reference, word and note come from the card and the designer opens; the clamp effect runs iff book or chapter changed |
| AppState.App.CycleFontSize | App.tsx:158-162 | the level moves to `(level + 1) % 3`, stays in 0..2 and always changes |
| AppState.ReloadDuringScan | App.tsx:197-277 | a reload lets a second scan start, the first scan's end releases the second scan's lock, and the first reply lands in the new passage's cache |
| AppState.ClickAfterScan | App.tsx:251-312 | after a successful scan of row 0, clicking an analysed word of that row shows its definition and root |
| AppState.ClickDuringScan | App.tsx:197-262 | a word clicked while a scan runs is replaced at the scan's end by the word selected when the scan started, with its new analysis |
| RetryLoop.RetryFrom | App.tsx:228-249 | at most three calls; the waits are 2000 ms times the failure count; every call before the last threw; the text is the last call's answer; no text only after the third call threw |
| RetryLoop.RetryGivesUpOnlyAfterThreeFailures | App.tsx:232-249 | the loop gives up iff all three calls threw, and then waited 2000 and 4000 ms |
| RetryLoop.RetryKeepsFirstAnswer | App.tsx:238-239 | the first answer ends the loop and is kept, after `k + 1` calls |
| RetryLoop.RunAttempts | App.tsx:228-249 | the `while` loop makes the calls and waits of `Retry` and returns its text |
| Text.JoinSplit | App.tsx:379 | joining the parts of `split(' ')` with the separator gives the text back |
| Text.SplitPartsLackSeparator | App.tsx:379 | no part of a split holds the separator |
| Text.SplitWithoutSeparator | App.tsx:379 | a text without the separator splits into itself |
| Text.SplitAtFirstSeparator | App.tsx:379 | a split cuts at the first separator and continues on the rest |
| Text.SplitPartsWithin | App.tsx:379 | every character of a part is in the text |
| Text.SkipTag | App.tsx:386 | the rest after a tag is a suffix of the text |
| Text.StripTagsRemovesOpenings | App.tsx:386 | no `<` survives `replace(/<[^>]*>?/gm, '')`, and the text does not grow |
| Text.StripTagsKeepsOwnChars | App.tsx:386 | stripping adds no character |
| Text.StripTagsKeepsPlainText | App.tsx:386 | a text without `<` is unchanged |
| Text.StripTagsPlainPrefix | App.tsx:386 | text before the first `<` is kept as it is |
| Text.SkipTagUnclosed | App.tsx:386 | an unclosed tag runs to the end (`>?`) |
| Text.SkipTagThroughClose | App.tsx:386 | a tag ends at its first `>` |
| Text.StripTagsOfTag | App.tsx:386 | a closed tag is removed whole |
| Text.StripTagsOfUnclosed | App.tsx:386 | an unclosed tag removes the rest of the text |
| Text.StripTagsIdempotent | App.tsx:386 | stripping twice is stripping once |
| Text.JsRemainder | App.tsx:159 | JavaScript `%`: the remainder has the dividend's sign, is smaller than the divisor, and the dividend minus it is a multiple of the divisor |
| Fences.DropLeadingSpaces | App.tsx:251 | `\s*` at the start: the result is a suffix, starts with no white space, and everything dropped is white space |
| Fences.DropTrailingSpaces | App.tsx:251 | `\s*` at the end: the result is a prefix, ends with no white space, and everything dropped is white space |
| Fences.StripFencesKeepsUnfenced | App.tsx:251 | a reply that neither starts nor ends with a fence reaches the parser unchanged |
| Fences.StripFencesOfJsonBlock | App.tsx:251 | a `json` code block gives back exactly its body |
| Fences.TaggedOpening | App.tsx:251 | a `json` opening fence is dropped with the white space after it |
| Fences.UntaggedOpening | App.tsx:251 | an opening fence without the tag is left to the second replacement |
| Fences.StripFencesOfBareBlock | App.tsx:251 | an untagged code block gives back exactly its body |
| Fences.StripFencesOfEmpty | App.tsx:251 | the empty answer stays empty |
| Letters.CleanHebrew | components/WordBreakdownPanel.tsx:28 | the cleaned text holds only letters of the block and is no longer than the input |
| Letters.CleanHebrewAppend | components/WordBreakdownPanel.tsx:28 | cleaning works character by character, in order |
| Letters.CleanHebrewKeepsLetters | components/WordBreakdownPanel.tsx:28 | a text of block letters is kept whole |
| Letters.CleanHebrewDropsOthers | components/WordBreakdownPanel.tsx:28 | a text without block letters cleans to empty |
| Letters.CleanHebrewIdempotent | components/WordBreakdownPanel.tsx:28 | cleaning twice is cleaning once |
| Letters.LookupCoversBlock | components/WordBreakdownPanel.tsx:31-32 | a character has a table entry iff it is in the block; the entry is its base letter's |
| Letters.BreakdownOfLetters | components/WordBreakdownPanel.tsx:29-34 | for cleaned text `filter(Boolean)` drops nothing: one entry per letter, the base letter's entry, in order |
| Letters.SingleLetterBreakdown | components/WordBreakdownPanel.tsx:29-34 | one letter gives its base letter's entry |
| Letters.BreakdownIgnoresNonLetters | components/WordBreakdownPanel.tsx:28-34 | the breakdown of any text is the breakdown of its cleaned letters |
| Letters.WordBreakdownOfStripped | components/WordBreakdownPanel.tsx:60-61 | a word and its stripped form break down alike, one entry per letter |
| Letters.SeparatorIgnored | components/WordBreakdownPanel.tsx:60-61 | a separator or point between letters does not change the breakdown |
| Letters.LetterBreakdownAppend | components/WordBreakdownPanel.tsx:29-34 | the breakdown of joined texts is the joined breakdowns |
| Letters.FinalFormShownAsBase | components/WordBreakdownPanel.tsx:31-32 | a final form adds its base letter's entry |
| Letters.HoverCards | App.tsx:336-347 | one card per cleaned letter, with its base letter's emoji and the letter as written, and an arrow between cards; no card is dropped |
| ReaderRules.MaxChapters | App.tsx:423 | the book's chapter count when listed, else 50 |
| ReaderRules.NavStaysInRange | App.tsx:296-301 | an arrow does nothing exactly at its end of the range; otherwise it moves by one and stays in `1..max` |
| ReaderRules.NavRoundTrip | App.tsx:296-301 | next then previous comes back |
| ReaderRules.ClampChapterInRange | App.tsx:133-136 | the clamp lands in `1..max`, keeps a chapter already there, resets a larger one to 1, and is idempotent |
| ReaderRules.FontSizeCycles | App.tsx:158-160 | the next level is in 0..2 and differs; three steps come back |
| ReaderRules.FontSizeRecovers | App.tsx:158-160 | from any level at least -1 the next level is in 0..2 |
| ReaderRules.Take | App.tsx:312 | `slice(0, n)`: the first `min(n, len)` elements |
| ReaderRules.PushHistoryShape | App.tsx:312 | the head carries the clicked text, at most 10 entries; the list is unchanged if the head already had the text, else the word is prepended to the old front |
| ReaderRules.PushHistoryIdempotent | App.tsx:312 | clicking the same word twice equals clicking it once |
| ReaderRules.Filter | App.tsx:428 | an element is kept iff it occurs in the input and passes, and the result does not grow; order and repeats are stated by FilterAppend and FilterSingle |
| ReaderRules.FilterAppend | App.tsx:428 | filtering a joined list filters each part and keeps them in order |
| ReaderRules.FilterSingle | App.tsx:428 | a one-element list keeps its element iff it passes |
| ReaderRules.FilterKeepsAll | App.tsx:428 | a filter that every element passes changes nothing |
| ReaderRules.SaveCard | App.tsx:171 | the card heads the list and the old list follows |
| ReaderRules.DeleteCard | App.tsx:177 | a card stays iff it was saved and its id differs |
| ReaderRules.DeleteCardKeepsOrder | App.tsx:177 | deleting keeps the other cards in their order: it works part by part and keeps a card iff its id differs |
| ReaderRules.SaveThenDelete | App.tsx:170-178 | deleting a just-saved card with a fresh id restores the list |
| ReaderRules.CardsOfBook | App.tsx:428 | a card is listed iff it is saved and of that book |
| ReaderRules.CardsOfBookKeepsOrder | App.tsx:428 | the book filter keeps the book's cards in their saved order, part by part |
| ReaderRules.SavedCardHeadsItsBook | App.tsx:428 | a saved card heads its book's list |
| ReaderRules.Lines | App.tsx:421-422 | a single string becomes the one-line array holding it; an array is taken as it is |
| ReaderRules.LinesNormalise | App.tsx:421-422 | a single string reads as the one-line array holding it |
| ReaderRules.EnglishLine | App.tsx:422 | a line exists iff the English array has the index, and it holds no `<` |
| ReaderRules.SingleVerseReply | App.tsx:421-422 | a single-verse reply gives one Hebrew line and one tag-stripped English line |
| ReaderRules.TokensAreClean | App.tsx:377-387 | every shown word is non-empty, without spaces and without `<` |
| ReaderRules.TokensOfPlainVerse | App.tsx:377-387 | a tag-free verse with single spaces shows exactly its split words, which join back to the verse |
| ReaderRules.TaggedWordSplit | App.tsx:379 | splitting a tag with an attribute cuts the tag in two |
| ReaderRules.ClosingTagStrip | App.tsx:386 | a closing tag strips to nothing |
| ReaderRules.TaggedWordStrip | App.tsx:386 | the attribute half keeps the attribute text, the `>` and the word |
| ReaderRules.TagAttributeLeaks | App.tsx:379-387 | a word wrapped in a tag with an attribute is shown as attribute, `>` and word |
| Highlight.SplitKeeping | App.tsx:404 | an odd number of pieces that concatenate to the line; each odd piece is a case-insensitive match of the phrase |
| Highlight.SplitGapsHaveNoMatch | App.tsx:404 | the pieces between matches contain no match |
| Highlight.SplitIsLeftmost | App.tsx:404 | each match is the leftmost one: no occurrence starts inside a gap, not even one overlapping the next match |
| Highlight.ShiftedMatchIff | App.tsx:404 | a match one character further into a longer line is the same match in the shorter line |
| Highlight.SplitWithoutMatch | App.tsx:404 | a line without a match stays one piece |
| Highlight.LowerEqualIsWholeMatch | App.tsx:406 | `toLowerCase` equality is a whole-piece case-insensitive match |
| Highlight.SpansPartitionLine | App.tsx:404-407 | the spans concatenate to the line, and a span is highlighted iff it is a kept match |
| Highlight.HighlightedSpansMatchPhrase | App.tsx:406 | every highlighted span equals the phrase ignoring case, and no two highlighted spans are adjacent |
| Highlight.RenderWithoutHighlight | App.tsx:400-411 | another verse, no hovered word, an empty hovered word, an unannotated word or an empty match renders one plain span |
| Highlight.RenderWithoutOccurrence | App.tsx:404-407 | a line without the phrase renders one plain span |
| WordPanel.PanelWithoutSelection | components/WordBreakdownPanel.tsx:36-61 | no selection shows "Select a word...", dashes and no letters |
| WordPanel.PanelShowsAnalysis | components/WordBreakdownPanel.tsx:41-45 | an analysed word shows its definition and root, the morphology or "Root analysis complete", the root line, and the badge `verseIndex + 1` |
| WordPanel.PanelPlaceholders | components/WordBreakdownPanel.tsx:46-57 | an unanalysed word shows the texts of its verse's status, the "Scanning..." tag only while scanning, and no root line |
| WordPanel.PlaceholderRevealsStatus | components/WordBreakdownPanel.tsx:46-57 | two statuses give the same placeholder iff they are equal or both are idle/error |
| WordPanel.PanelBreakdownCoversWord | components/WordBreakdownPanel.tsx:60-61 | one letter card per cleaned letter, each its base letter's entry |
| ExportPreview.Flip | components/ExportPreviewModal.tsx:98 | the chosen switch is negated and the other five are unchanged |
| ExportPreview.FlipIsDetermined | components/ExportPreviewModal.tsx:15-22 | flipping one switch and keeping the other five fixes the new toggles: they are `Flip`'s result |
| ExportPreview.FlipTwice | components/ExportPreviewModal.tsx:98 | two clicks on one checkbox restore the toggles |
| ExportPreview.FlipsCommute | components/ExportPreviewModal.tsx:98 | clicks on two checkboxes commute |
| ExportPreview.FileNameNamesLetters | components/ExportPreviewModal.tsx:53 | the file name is the cleaned letters between "rhema-card-" and ".png", so two words share a name iff their letters agree |
| ExportPreview.SectionFor | components/ExportPreviewModal.tsx:129-193 | each module renders a section of its own kind |
| ExportPreview.ShowsAppend | components/ExportPreviewModal.tsx:128-198 | a module shows on joined sections iff it shows on one part |
| ExportPreview.SectionsShow | components/ExportPreviewModal.tsx:129-193 | a module shows iff it is listed and visible |
| ExportPreview.CardShowsExactlyTheToggled | components/ExportPreviewModal.tsx:129-186 | a module is on the card iff its switch is on; the reflection also needs a non-empty note |
| ExportPreview.CardWithAllOn | components/ExportPreviewModal.tsx:128-198 | with every switch on, the sections come in card order, the reflection only with a note |
| ExportPreview.FullCard | components/ExportPreviewModal.tsx:129-174 | with all switches on and a note, six sections; the badge first with the book in capitals and verse `index + 1` |
| ExportPreview.CardFallbacks | components/ExportPreviewModal.tsx:144-193 | a word without analysis shows "Morphology Data", "Translation" and the "Awaiting neural analysis..." text |
| ExportPreview.CardFlowIsWordBreakdown | components/ExportPreviewModal.tsx:38-41 | the card's tiles are the word panel's breakdown of the same word, one per Hebrew letter |
| ExportPreview.ExportModal.constructor | components/ExportPreviewModal.tsx:15-23 | all six switches start on and nothing is being generated |
| ExportPreview.ExportModal.FlipToggle | components/ExportPreviewModal.tsx:98 | the toggles become the flip of the old toggles at that module |
| ExportPreview.ExportModal.Download | components/ExportPreviewModal.tsx:43-61 | nothing without preview node or renderer; otherwise the busy flag goes true then false in every case, and a successful render saves the image under the word's file name |
| Constants.AlphabetIncreasing | constants.ts:5-28 | the 22 letters are in strictly increasing code-point order |
| Constants.LetterTableShape | constants.ts:5-28 | the letter table has exactly the 22 letters as keys and each entry's letter is its key |
| Constants.FinalFormsShape | constants.ts:31-37 | the final-form map has exactly the five final forms as keys; each maps to a letter-table key and none is one |
| Constants.FinalFormTarget | constants.ts:5-37 | a final form is missing from the letter table but its base letter is in it |
| Constants.FinalFormsOutsideAlphabet | constants.ts:31-37 | no final form is a base letter |
| Constants.FinalFormsLandInAlphabet | constants.ts:31-37 | every final form maps to a base letter |
| Constants.LetterBlockCovered | constants.ts:5-37 | a character is in U+05D0..U+05EA iff it is a base letter or a final form |
| Constants.LetterBlockSize | constants.ts:5-37 | the base letters and final forms are 27 characters |
| Constants.GematriaKeys | constants.ts:65-70 | the gematria table has exactly the base letters and final forms |
| Constants.GematriaOfAlphabet | constants.ts:65-70 | the letters in alphabet order have the values 1..10, 20..90, 100..400 |
| Constants.GematriaFinals | constants.ts:65-70 | the final forms have 500, 600, 700, 800, 900 in code-point order |
| Constants.GematriaOrder | constants.ts:65-70 | gematria increases strictly in alphabet order from 1 to 400, and the finals take 500 to 900 |
| Constants.AudioCoversAlphabet | constants.ts:40-63 | the spoken names are given for exactly the 22 base letters |
| Constants.BookListIsKeys | constants.ts:72-114 | the book list holds exactly the chapter table's keys |
| Constants.ChapterCountsPositive | constants.ts:72-112 | every book has at least one chapter |
| Constants.BibleDataShape | constants.ts:72-114 | 39 listed books, exactly the table's keys, each with a chapter |
| Constants.LetterDetailsAgree | constants.ts:161-425 | the letter dictionary lists the 22 letters in alphabet order with the letter table's names and emoji |

## Left out

- The layout is not modelled: JSX and CSS, the theme, the landing page, the settings, panel maximising and mobile routing.
- Persistence is not modelled. localStorage reads and writes of preferences, notes and cards are left out. A stored note reaches `WordClick` as a parameter.
- Requests are not modelled. The scripture request and the generator call are parameters, and the prompt text is not modelled.
- `setTimeout`, `requestAnimationFrame` and the popup's position and fade are left out. The waits are recorded as numbers.
- The popup's HTML string is modelled as a list of letter cards and a footer. An analysis whose definition is missing would print "undefined" there; the model prints "".
- html2canvas is left out, and so is the PNG data. `Download` takes the renderer's success as a parameter.
- `JSON.parse` is an abstract parameter returning a word map or nothing. What JavaScript does with a reply that parses to something other than an object is not modelled: a parsed `null` throws at App.tsx:259 after the status was set to `complete`, so `error` follows it when the selected word is in that verse; a number merges nothing and refreshes nothing; a parsed string or array merges its index keys ("0", "1", …) into the cache.
- Highlight.SplitKeeping: the phrase is treated as literal text. The source builds a regular expression from it, so metacharacters in an English match would behave differently. Case folding is ASCII only.
- Text.Lower: ASCII only, as for all case mapping here. JavaScript folds all of Unicode.
- Text.Upper: ASCII only, as above.
- A font size read back from storage is not modelled: the level starts at 0 and stays in 0..2. FontSizeRecovers covers a stored level of -1 or more, but not `NaN`.
- `parseInt` of the verse picker is not modelled: the choice is a `nat`, with 0 standing for the empty choice.
- AppState.App.RestoreCard: a card's non-positive verse is read as the whole chapter. The source copies `card.verse` as it is.
- `BIBLE_VERSE_COUNTS` and the verse picker's length are not modelled. They only size a drop-down list.
- The prose fields of `LETTER_DETAILS` (meanings, descriptions) are not modelled. Only the letter, name and emoji are.
- components/LetterDictionary.tsx is not part of this model.
- The modal's `onSaveCard` property is not modelled: the modal never calls it.
- Concurrency is modelled only through the split of a scan into `BeginScan` and `FinishScan`. Any other interleaving of asynchronous callbacks is left out, as is React's batching of state updates.
