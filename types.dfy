/**
 * The records of types.ts: letter table entries, the generator's word analysis,
 * the selected word, saved cards and the scripture reply.
 */
module Types {
  import opened Wrappers

  /** One entry of the letter table (`LetterDefinition`); `letter` is the source's `char` field. */
  datatype LetterDefinition = LetterDefinition(
    letter: char,
    name: string,
    pictograph: string,
    meaning: string,
    emoji: string)

  /**
   * The generator's analysis of one word (`AiWordAnalysis`). The source reads every field with
   * `||`, which treats a missing field and the empty string alike, so a missing field is "" here.
   */
  datatype Annotation = Annotation(
    definition: string,
    englishMatch: string,
    root: string,
    transliteration: string,
    morphology: string,
    reflection: string)

  /** The word annotation cache: exact surface form to analysis (`AiChapterData`). */
  type AnnotationMap = map<string, Annotation>

  /**
   * A clicked word (`WordData & { aiDefinition?: AiWordAnalysis }`): its surface text, its letters
   * only, the verse index it was rendered under and the analysis it carried when selected.
   */
  datatype WordData = WordData(
    text: string,
    cleanText: string,
    verseIndex: int,
    aiDefinition: Option<Annotation>)

  /** A saved design card (`SavedCard`). */
  datatype SavedCard = SavedCard(
    id: string,
    book: string,
    chapter: int,
    verse: int,
    wordText: string,
    wordData: WordData,
    note: string,
    timestamp: int)

  /** The per-verse scan status. */
  datatype ScanStatus = Idle | Scanning | Complete | Error

  /** A field of the scripture reply that is either one string or one string per verse. */
  datatype VerseField = Single(line: string) | PerVerse(lines: seq<string>)

  /** The scripture reply (`SefariaResponse`). */
  datatype ScriptureResponse = ScriptureResponse(he: VerseField, text: VerseField, book: string, chapter: int)
}
