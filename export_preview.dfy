/** The card designer (components/ExportPreviewModal.tsx): toggles, card sections, fallbacks and the download. */
module ExportPreview {
  import opened Wrappers
  import opened Types
  import opened Text
  import opened Letters

  /** The six optional modules of the card. */
  datatype Module = VerseRef | HebrewWord | Morph | Picto | Personal | Guided

  datatype Toggles = Toggles(verse: bool, hebrew: bool, morph: bool, picto: bool, personal: bool, guided: bool)

  /** Every module starts switched on. */
  const AllOn := Toggles(true, true, true, true, true, true)

  function IsOn(t: Toggles, m: Module): bool {
    match m
    case VerseRef => t.verse
    case HebrewWord => t.hebrew
    case Morph => t.morph
    case Picto => t.picto
    case Personal => t.personal
    case Guided => t.guided
  }

  /** The switch `o` after flipping `m`: `o`'s own value, negated when it is `m`. */
  function Switched(t: Toggles, m: Module, o: Module): bool {
    if o == m then !IsOn(t, o) else IsOn(t, o)
  }

  /** `setToggles(prev => ({...prev, [id]: !prev[id]}))`: the chosen module flips and no other changes. */
  function Flip(t: Toggles, m: Module): (r: Toggles)
    ensures IsOn(r, m) == !IsOn(t, m)
    ensures forall o :: o != m ==> IsOn(r, o) == IsOn(t, o)
  {
    Toggles(Switched(t, m, VerseRef), Switched(t, m, HebrewWord), Switched(t, m, Morph),
            Switched(t, m, Picto), Switched(t, m, Personal), Switched(t, m, Guided))
  }

  /** Two toggles with the same switches are the same. */
  lemma TogglesExtensional(a: Toggles, b: Toggles)
    requires forall m :: IsOn(a, m) == IsOn(b, m)
    ensures a == b
  {
    assert IsOn(a, VerseRef) == IsOn(b, VerseRef) && IsOn(a, HebrewWord) == IsOn(b, HebrewWord);
    assert IsOn(a, Morph) == IsOn(b, Morph) && IsOn(a, Picto) == IsOn(b, Picto);
    assert IsOn(a, Personal) == IsOn(b, Personal) && IsOn(a, Guided) == IsOn(b, Guided);
  }

  /** Flip's two postconditions fix its result: any toggles that flip `m` and keep the rest are `Flip(t, m)`. */
  lemma FlipIsDetermined(t: Toggles, m: Module, r: Toggles)
    requires IsOn(r, m) == !IsOn(t, m)
    requires forall o :: o != m ==> IsOn(r, o) == IsOn(t, o)
    ensures r == Flip(t, m)
  {
    TogglesExtensional(r, Flip(t, m));
  }

  /** Flipping a module twice restores the toggles. */
  lemma FlipTwice(t: Toggles, m: Module)
    ensures Flip(Flip(t, m), m) == t
  {
  }

  /** Flips of two modules commute. */
  lemma FlipsCommute(t: Toggles, m: Module, n: Module)
    ensures Flip(Flip(t, m), n) == Flip(Flip(t, n), m)
  {
  }

  /** `link.download`: the cleaned letters between a fixed prefix and suffix. */
  function FileName(wordText: string): string {
    "rhema-card-" + CleanHebrew(wordText) + ".png"
  }

  /** The file name gives the cleaned word back, so two words share a file name exactly when their letters agree. */
  lemma FileNameNamesLetters(a: string, b: string)
    ensures |FileName(a)| == |CleanHebrew(a)| + 15
    ensures FileName(a)[11..|FileName(a)| - 4] == CleanHebrew(a)
    ensures FileName(a) == FileName(b) <==> CleanHebrew(a) == CleanHebrew(b)
  {
    var fa := FileName(a);
    assert fa[11..|fa| - 4] == CleanHebrew(a);
    var fb := FileName(b);
    assert fb[11..|fb| - 4] == CleanHebrew(b);
  }

  /** One rendered section of the card, in card order. */
  datatype Section =
    | Badge(book: string, chapter: int, verse: int)
    | Word(text: string)
    | Analysis(morphology: string, definition: string)
    | Flow(tiles: seq<LetterDefinition>)
    | Reflection(note: string)
    | Insight(text: string)

  function MorphologyText(analysis: Option<Annotation>): string {
    if analysis.Some? && analysis.value.morphology != "" then analysis.value.morphology else "Morphology Data"
  }

  function DefinitionText(analysis: Option<Annotation>): string {
    if analysis.Some? && analysis.value.definition != "" then analysis.value.definition else "Translation"
  }

  function InsightText(analysis: Option<Annotation>): string {
    if analysis.Some? && analysis.value.reflection != "" then analysis.value.reflection
    else "Awaiting neural analysis for deeper spiritual context..."
  }

  /** The modules in card order. */
  const CardOrder: seq<Module> := [VerseRef, HebrewWord, Morph, Picto, Personal, Guided]

  /** A module is rendered when switched on; the personal block also needs a non-empty note. */
  predicate Visible(t: Toggles, note: string, m: Module) {
    IsOn(t, m) && (m == Personal ==> note != "")
  }

  /** The section a module renders, with its fallbacks and the upper-cased book name. */
  function SectionFor(w: WordData, bookName: string, chapter: int, note: string, m: Module): (s: Section)
    ensures ModuleOf(s) == m
  {
    match m
    case VerseRef => Badge(Upper(bookName), chapter, w.verseIndex + 1)
    case HebrewWord => Word(w.text)
    case Morph => Analysis(MorphologyText(w.aiDefinition), DefinitionText(w.aiDefinition))
    case Picto => Flow(WordBreakdown(w.text))
    case Personal => Reflection(note)
    case Guided => Insight(InsightText(w.aiDefinition))
  }

  function Sections(w: WordData, bookName: string, chapter: int, note: string, t: Toggles, ms: seq<Module>): seq<Section> {
    if ms == [] then []
    else
      (if Visible(t, note, ms[0]) then [SectionFor(w, bookName, chapter, note, ms[0])] else [])
      + Sections(w, bookName, chapter, note, t, ms[1..])
  }

  /** The preview card: the visible modules' sections in card order. */
  function Card(w: WordData, bookName: string, chapter: int, note: string, t: Toggles): seq<Section> {
    Sections(w, bookName, chapter, note, t, CardOrder)
  }

  /** Which module a section belongs to. */
  function ModuleOf(s: Section): Module {
    match s
    case Badge(_, _, _) => VerseRef
    case Word(_) => HebrewWord
    case Analysis(_, _) => Morph
    case Flow(_) => Picto
    case Reflection(_) => Personal
    case Insight(_) => Guided
  }

  predicate Shows(card: seq<Section>, m: Module) {
    exists i :: 0 <= i < |card| && ModuleOf(card[i]) == m
  }

  lemma ShowsAppend(a: seq<Section>, b: seq<Section>, m: Module)
    ensures Shows(a + b, m) <==> Shows(a, m) || Shows(b, m)
  {
    if Shows(b, m) {
      var i :| 0 <= i < |b| && ModuleOf(b[i]) == m;
      assert (a + b)[|a| + i] == b[i];
    }
    if Shows(a, m) {
      var i :| 0 <= i < |a| && ModuleOf(a[i]) == m;
      assert (a + b)[i] == a[i];
    }
    if Shows(a + b, m) {
      var i :| 0 <= i < |a + b| && ModuleOf((a + b)[i]) == m;
      if i >= |a| {
        assert (a + b)[i] == b[i - |a|];
      }
    }
  }

  lemma {:induction false} SectionsShow(w: WordData, bookName: string, chapter: int, note: string, t: Toggles, ms: seq<Module>, m: Module)
    ensures Shows(Sections(w, bookName, chapter, note, t, ms), m) <==> m in ms && Visible(t, note, m)
  {
    if ms != [] {
      SectionsShow(w, bookName, chapter, note, t, ms[1..], m);
      var head := if Visible(t, note, ms[0]) then [SectionFor(w, bookName, chapter, note, ms[0])] else [];
      var rest := Sections(w, bookName, chapter, note, t, ms[1..]);
      ShowsAppend(head, rest, m);
      if Visible(t, note, ms[0]) {
        assert ModuleOf(head[0]) == ms[0];
      }
      assert Shows(head, m) <==> ms[0] == m && Visible(t, note, m);
      assert m in ms <==> m == ms[0] || m in ms[1..];
    }
  }

  /** A module is on the card exactly when it is switched on; the reflection also needs a non-empty note. */
  lemma CardShowsExactlyTheToggled(w: WordData, bookName: string, chapter: int, note: string, t: Toggles, m: Module)
    ensures Shows(Card(w, bookName, chapter, note, t), m) <==>
      IsOn(t, m) && (m == Personal ==> note != "")
  {
    SectionsShow(w, bookName, chapter, note, t, CardOrder, m);
    assert m in CardOrder by {
      match m
      case VerseRef => assert CardOrder[0] == m;
      case HebrewWord => assert CardOrder[1] == m;
      case Morph => assert CardOrder[2] == m;
      case Picto => assert CardOrder[3] == m;
      case Personal => assert CardOrder[4] == m;
      case Guided => assert CardOrder[5] == m;
    }
  }

  lemma SectionsCons(w: WordData, bookName: string, chapter: int, note: string, t: Toggles, m: Module, ms: seq<Module>)
    ensures Sections(w, bookName, chapter, note, t, [m] + ms) ==
      (if Visible(t, note, m) then [SectionFor(w, bookName, chapter, note, m)] else [])
      + Sections(w, bookName, chapter, note, t, ms)
  {
    assert ([m] + ms)[1..] == ms;
  }

  lemma AllOnLastTwo(w: WordData, bookName: string, chapter: int, note: string)
    ensures Sections(w, bookName, chapter, note, AllOn, [Personal, Guided]) ==
      (if note != "" then [Reflection(note)] else []) + [SectionFor(w, bookName, chapter, note, Guided)]
  {
    SectionsCons(w, bookName, chapter, note, AllOn, Guided, []);
    assert [Guided] == [Guided] + [];
    SectionsCons(w, bookName, chapter, note, AllOn, Personal, [Guided]);
    assert [Personal, Guided] == [Personal] + [Guided];
  }

  lemma AllOnTail(w: WordData, bookName: string, chapter: int, note: string)
    ensures Sections(w, bookName, chapter, note, AllOn, [Picto, Personal, Guided]) ==
      [SectionFor(w, bookName, chapter, note, Picto)]
      + ((if note != "" then [Reflection(note)] else []) + [SectionFor(w, bookName, chapter, note, Guided)])
  {
    AllOnLastTwo(w, bookName, chapter, note);
    SectionsCons(w, bookName, chapter, note, AllOn, Picto, [Personal, Guided]);
    assert [Picto, Personal, Guided] == [Picto] + [Personal, Guided];
  }

  lemma AllOnFromMorph(w: WordData, bookName: string, chapter: int, note: string)
    ensures Sections(w, bookName, chapter, note, AllOn, [Morph, Picto, Personal, Guided]) ==
      [SectionFor(w, bookName, chapter, note, Morph)]
      + Sections(w, bookName, chapter, note, AllOn, [Picto, Personal, Guided])
  {
    SectionsCons(w, bookName, chapter, note, AllOn, Morph, [Picto, Personal, Guided]);
    assert [Morph, Picto, Personal, Guided] == [Morph] + [Picto, Personal, Guided];
  }

  lemma AllOnHead(w: WordData, bookName: string, chapter: int, note: string)
    ensures Card(w, bookName, chapter, note, AllOn) ==
      [SectionFor(w, bookName, chapter, note, VerseRef), SectionFor(w, bookName, chapter, note, HebrewWord)]
      + Sections(w, bookName, chapter, note, AllOn, [Morph, Picto, Personal, Guided])
  {
    SectionsCons(w, bookName, chapter, note, AllOn, HebrewWord, [Morph, Picto, Personal, Guided]);
    assert [HebrewWord, Morph, Picto, Personal, Guided] == [HebrewWord] + [Morph, Picto, Personal, Guided];
    SectionsCons(w, bookName, chapter, note, AllOn, VerseRef, [HebrewWord, Morph, Picto, Personal, Guided]);
    assert CardOrder == [VerseRef] + [HebrewWord, Morph, Picto, Personal, Guided];
  }

  /** With every module on, the card lists the sections in order; the reflection only with a note. */
  lemma CardWithAllOn(w: WordData, bookName: string, chapter: int, note: string)
    ensures Card(w, bookName, chapter, note, AllOn) ==
      [SectionFor(w, bookName, chapter, note, VerseRef), SectionFor(w, bookName, chapter, note, HebrewWord),
       SectionFor(w, bookName, chapter, note, Morph), SectionFor(w, bookName, chapter, note, Picto)]
      + (if note != "" then [Reflection(note)] else [])
      + [SectionFor(w, bookName, chapter, note, Guided)]
  {
    AllOnTail(w, bookName, chapter, note);
    AllOnFromMorph(w, bookName, chapter, note);
    AllOnHead(w, bookName, chapter, note);
    var first := [SectionFor(w, bookName, chapter, note, VerseRef), SectionFor(w, bookName, chapter, note, HebrewWord)];
    var morph := SectionFor(w, bookName, chapter, note, Morph);
    var picto := SectionFor(w, bookName, chapter, note, Picto);
    var reflection := if note != "" then [Reflection(note)] else [];
    SectionsRegroup(first, morph, picto, reflection, SectionFor(w, bookName, chapter, note, Guided));
  }

  lemma SectionsRegroup(first: seq<Section>, morph: Section, picto: Section, reflection: seq<Section>, insight: Section)
    requires |first| == 2
    ensures first + ([morph] + ([picto] + (reflection + [insight])))
         == [first[0], first[1], morph, picto] + reflection + [insight]
  {
  }

  /** With every module on and a note, the card has all six sections, the badge first with the book in capitals. */
  lemma FullCard(w: WordData, bookName: string, chapter: int, note: string)
    requires note != ""
    ensures |Card(w, bookName, chapter, note, AllOn)| == 6
    ensures Card(w, bookName, chapter, note, AllOn)[0] == Badge(Upper(bookName), chapter, w.verseIndex + 1)
    ensures Card(w, bookName, chapter, note, AllOn)[4] == Reflection(note)
  {
    CardWithAllOn(w, bookName, chapter, note);
    assert SectionFor(w, bookName, chapter, note, VerseRef) == Badge(Upper(bookName), chapter, w.verseIndex + 1);
  }

  /** A word without analysis shows the three fallback texts. */
  lemma CardFallbacks(w: WordData, bookName: string, chapter: int, note: string)
    requires w.aiDefinition.None?
    ensures |Card(w, bookName, chapter, note, AllOn)| >= 5
    ensures Card(w, bookName, chapter, note, AllOn)[2] == Analysis("Morphology Data", "Translation")
    ensures Card(w, bookName, chapter, note, AllOn)[|Card(w, bookName, chapter, note, AllOn)| - 1]
      == Insight("Awaiting neural analysis for deeper spiritual context...")
  {
    CardWithAllOn(w, bookName, chapter, note);
  }

  /** The modal's letter tiles are the word panel's breakdown of the same word, one tile per Hebrew letter. */
  lemma CardFlowIsWordBreakdown(w: WordData, bookName: string, chapter: int, note: string)
    ensures |Card(w, bookName, chapter, note, AllOn)| >= 5
    ensures Card(w, bookName, chapter, note, AllOn)[3] == Flow(WordBreakdown(w.text))
    ensures |WordBreakdown(w.text)| == |CleanHebrew(w.text)|
  {
    CardWithAllOn(w, bookName, chapter, note);
    BreakdownOfLetters(CleanHebrew(w.text));
  }

  /** The open modal: its inputs, the toggle record and the busy flag. */
  class ExportModal {
    const word: WordData
    const bookName: string
    const chapter: int
    const journalNote: string
    var toggles: Toggles
    var isGenerating: bool

    constructor(word: WordData, bookName: string, chapter: int, journalNote: string)
      ensures this.word == word && this.bookName == bookName
      ensures this.chapter == chapter && this.journalNote == journalNote
      ensures toggles == AllOn && !isGenerating
    {
      this.word := word;
      this.bookName := bookName;
      this.chapter := chapter;
      this.journalNote := journalNote;
      toggles := AllOn;
      isGenerating := false;
    }

    /** The card as currently previewed. */
    function Preview(): seq<Section>
      reads this
    {
      Card(word, bookName, chapter, journalNote, toggles)
    }

    /** A click on one module's checkbox. */
    method FlipToggle(m: Module)
      modifies this`toggles
      ensures toggles == Flip(old(toggles), m)
      ensures IsOn(toggles, m) == !IsOn(old(toggles), m)
    {
      toggles := Flip(toggles, m);
    }

    /**
     * `handleDownload`: nothing happens without a preview node or the renderer; otherwise the busy
     * flag is raised, the renderer runs (`rendered` says whether it succeeded) and the flag is lowered
     * in every case. `busy` lists the values the flag took; `file` is the name of the saved image.
     */
    method Download(hasPreview: bool, hasRenderer: bool, rendered: bool) returns (file: Option<string>, busy: seq<bool>)
      modifies this`isGenerating
      ensures !(hasPreview && hasRenderer) ==> file.None? && busy == [] && isGenerating == old(isGenerating)
      ensures hasPreview && hasRenderer ==> busy == [true, false] && !isGenerating
      ensures hasPreview && hasRenderer && rendered ==> file == Some(FileName(word.text))
      ensures !rendered ==> file.None?
    {
      file := None;
      busy := [];
      if !hasPreview || !hasRenderer {
        return;
      }
      isGenerating := true;
      busy := busy + [isGenerating];
      if rendered {
        file := Some(FileName(word.text));
      }
      isGenerating := false;
      busy := busy + [isGenerating];
    }
  }
}
