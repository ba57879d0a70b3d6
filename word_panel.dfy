/** The text choices of the word panel (components/WordBreakdownPanel.tsx). */
module WordPanel {
  import opened Wrappers
  import opened Types
  import opened Constants
  import opened Letters

  /** What the panel shows for the selected word. */
  datatype PanelView = PanelView(
    badgeVerse: Option<int>,      // the verse number in the badge; None shows "--"
    definition: string,
    morphology: string,
    root: string,
    showsRoot: bool,              // the "Root:" line is rendered
    showsScanning: bool,          // the "Scanning..." tag is rendered
    breakdown: seq<LetterDefinition>)

  /** The `verseScanStatus = 'idle'` default for an absent status. */
  function StatusOrIdle(status: Option<ScanStatus>): (s: ScanStatus)
    ensures status.None? ==> s == Idle
    ensures status.Some? ==> s == status.value
  {
    status.GetOr(Idle)
  }

  /** The placeholder definition when the word carries no analysis. */
  function PlaceholderDefinition(status: ScanStatus): string {
    match status
    case Scanning => "Analyzing context..."
    case Complete => "Word not found in AI map."
    case _ => "Scan verse to unlock."
  }

  function PlaceholderMorphology(status: ScanStatus): string {
    match status
    case Scanning => "Neural uplink active..."
    case Complete => "Try rescanning verse."
    case _ => "Awaiting manual scan."
  }

  /** The panel for a selection (None: nothing selected) and the status of the selected word's verse. */
  function Panel(selected: Option<WordData>, status: ScanStatus): PanelView {
    match selected
    case None => PanelView(None, "Select a word...", "--", "--", false, false, [])
    case Some(w) =>
      var badge := Some(w.verseIndex + 1);
      var letters := WordBreakdown(w.text);
      match w.aiDefinition
      case Some(a) =>
        PanelView(badge, a.definition,
                  if a.morphology != "" then a.morphology else "Root analysis complete",
                  a.root, true, false, letters)
      case None =>
        PanelView(badge, PlaceholderDefinition(status), PlaceholderMorphology(status), "--",
                  false, status == Scanning, letters)
  }

  /** Nothing selected: every field shows its dash placeholder whatever the status. */
  lemma PanelWithoutSelection(status: ScanStatus)
    ensures Panel(None, status).definition == "Select a word..."
    ensures Panel(None, status).morphology == "--" && Panel(None, status).root == "--"
    ensures Panel(None, status).badgeVerse.None? && Panel(None, status).breakdown == []
  {
  }

  /** A word with an analysis shows that analysis, whatever its verse's status, with the morphology fallback. */
  lemma PanelShowsAnalysis(w: WordData, status: ScanStatus)
    requires w.aiDefinition.Some?
    ensures var v := Panel(Some(w), status);
      v.definition == w.aiDefinition.value.definition
      && v.root == w.aiDefinition.value.root && v.showsRoot && !v.showsScanning
      && (w.aiDefinition.value.morphology == "" ==> v.morphology == "Root analysis complete")
      && (w.aiDefinition.value.morphology != "" ==> v.morphology == w.aiDefinition.value.morphology)
      && v.badgeVerse == Some(w.verseIndex + 1)
  {
  }

  /** A word without an analysis shows its verse's status: the texts for scanning, scanned, and not (or badly) scanned. */
  lemma PanelPlaceholders(w: WordData, status: ScanStatus)
    requires w.aiDefinition.None?
    ensures var v := Panel(Some(w), status);
      && v.root == "--" && !v.showsRoot && (v.showsScanning <==> status == Scanning)
      && (status == Scanning ==> v.definition == "Analyzing context..." && v.morphology == "Neural uplink active...")
      && (status == Complete ==> v.definition == "Word not found in AI map." && v.morphology == "Try rescanning verse.")
      && (status in {Idle, Error} ==> v.definition == "Scan verse to unlock." && v.morphology == "Awaiting manual scan.")
      && v.badgeVerse == Some(w.verseIndex + 1)
  {
  }

  /** Without an analysis the definition tells the three states apart: scanning, scanned without the word, not scanned. */
  lemma PlaceholderRevealsStatus(w: WordData, s1: ScanStatus, s2: ScanStatus)
    requires w.aiDefinition.None?
    ensures Panel(Some(w), s1).definition == Panel(Some(w), s2).definition <==>
      s1 == s2 || (s1 in {Idle, Error} && s2 in {Idle, Error})
  {
  }

  /** The panel's letter cards cover the whole cleaned word: one card per Hebrew letter, none dropped. */
  lemma PanelBreakdownCoversWord(w: WordData, status: ScanStatus)
    ensures |Panel(Some(w), status).breakdown| == |CleanHebrew(w.text)|
    ensures forall i :: 0 <= i < |CleanHebrew(w.text)| ==>
      RootLetter(CleanHebrew(w.text)[i]) in DefaultHebrewMap
      && Panel(Some(w), status).breakdown[i] == DefaultHebrewMap[RootLetter(CleanHebrew(w.text)[i])]
  {
    BreakdownOfLetters(CleanHebrew(w.text));
  }
}
