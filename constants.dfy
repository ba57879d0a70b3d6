/**
 * The constant tables of constants.ts: the letter table, the final-form map, the spoken
 * letter names, the gematria values, the chapter counts per book and the letter dictionary.
 * Letters are characters; the tables are Dafny constant maps and sequences.
 */
module Constants {
  import opened Wrappers
  import opened Types

  /** The 22 base letters in alphabet order. */
  const Alphabet: seq<char> := ['א', 'ב', 'ג', 'ד', 'ה', 'ו', 'ז', 'ח', 'ט', 'י', 'כ',
                                'ל', 'מ', 'נ', 'ס', 'ע', 'פ', 'צ', 'ק', 'ר', 'ש', 'ת']

  /** The five final (sofit) forms in code-point order. */
  const FinalForms: seq<char> := ['ך', 'ם', 'ן', 'ף', 'ץ']

  /** The code-point block U+05D0..U+05EA that the source's letter filter keeps. */
  predicate InLetterBlock(c: char) {
    'א' <= c <= 'ת'
  }

  /** One entry of the letter dictionary (its prose fields are not modelled). */
  datatype LetterDetail = LetterDetail(letter: char, name: string, emoji: string)

  /** `SOFIT_MAP`: each final form to its base letter. */
  const SofitMap: map<char, char> := map['ך' := 'כ', 'ם' := 'מ', 'ן' := 'נ', 'ף' := 'פ', 'ץ' := 'צ']

  /** `DEFAULT_HEBREW_MAP`: each base letter to its table entry. */
  const DefaultHebrewMap: map<char, LetterDefinition> := map[
    'א' := LetterDefinition('א', "Aleph", "Ox", "Strength, Leader", "🐮"),
    'ב' := LetterDefinition('ב', "Bet", "House, Tent", "Family, In", "⛺"),
    'ג' := LetterDefinition('ג', "Gimel", "Camel, Foot", "Walk, Gather", "🐫"),
    'ד' := LetterDefinition('ד', "Dalet", "Door, Path", "Move, Hang", "🚪"),
    'ה' := LetterDefinition('ה', "Hei", "Window, Behold", "Reveal, Breath", "🧘"),
    'ו' := LetterDefinition('ו', "Vav", "Nail, Hook", "Add, Secure", "🪝"),
    'ז' := LetterDefinition('ז', "Zayin", "Weapon, Cut", "Food, Cut", "⚔️"),
    'ח' := LetterDefinition('ח', "Chet", "Fence, Wall", "Separate, Protect", "🚧"),
    'ט' := LetterDefinition('ט', "Tet", "Basket, Snake", "Surround, Twist", "🧺"),
    'י' := LetterDefinition('י', "Yod", "Hand, Arm", "Work, Throw", "💪"),
    'כ' := LetterDefinition('כ', "Kaf", "Palm, Open", "Bend, Allow", "✋"),
    'ל' := LetterDefinition('ל', "Lamed", "Staff, Shepherd", "Teach, Yoke", "🦯"),
    'מ' := LetterDefinition('מ', "Mem", "Water, Chaos", "Massive, Unknown", "🌊"),
    'נ' := LetterDefinition('נ', "Nun", "Seed, Life", "Continue, Heir", "🌱"),
    'ס' := LetterDefinition('ס', "Samekh", "Prop, Support", "Turn, Slow", "🪵"),
    'ע' := LetterDefinition('ע', "Ayin", "Eye, See", "Watch, Know", "👁️"),
    'פ' := LetterDefinition('פ', "Pe", "Mouth, Speak", "Blow, Scatter", "👄"),
    'צ' := LetterDefinition('צ', "Tsade", "Fishhook, Hunt", "Side, Trail", "🎣"),
    'ק' := LetterDefinition('ק', "Qof", "Sun, Horizon", "Circle, Time", "🌅"),
    'ר' := LetterDefinition('ר', "Resh", "Head, Person", "First, Top", "👤"),
    'ש' := LetterDefinition('ש', "Shin", "Tooth, Consume", "Sharp, Press", "🦷"),
    'ת' := LetterDefinition('ת', "Tav", "Mark, Sign", "Signal, Monument", "✝️")
  ]

  /** `LETTER_AUDIO_MAP`: each base letter to its pointed spoken name. */
  const LetterAudioMap: map<char, string> := map[
    'א' := "אָלֶף",
    'ב' := "בֵּית",
    'ג' := "גִּימֶל",
    'ד' := "דָּלֶת",
    'ה' := "הֵא",
    'ו' := "וָו",
    'ז' := "זַיִן",
    'ח' := "חֵית",
    'ט' := "טֵית",
    'י' := "יוֹד",
    'כ' := "כַּף",
    'ל' := "לָמֶד",
    'מ' := "מֵם",
    'נ' := "נוּן",
    'ס' := "סָמֶךְ",
    'ע' := "עַיִן",
    'פ' := "פֵּא",
    'צ' := "צַדִי",
    'ק' := "קוֹף",
    'ר' := "רֵישׁ",
    'ש' := "שִׁין",
    'ת' := "תָּו"
  ]

  /** `GEMATRIA_VALUES`, finals included. */
  const GematriaValues: map<char, int> := map[
    'א' := 1,
    'ב' := 2,
    'ג' := 3,
    'ד' := 4,
    'ה' := 5,
    'ו' := 6,
    'ז' := 7,
    'ח' := 8,
    'ט' := 9,
    'י' := 10,
    'כ' := 20,
    'ל' := 30,
    'מ' := 40,
    'נ' := 50,
    'ס' := 60,
    'ע' := 70,
    'פ' := 80,
    'צ' := 90,
    'ק' := 100,
    'ר' := 200,
    'ש' := 300,
    'ת' := 400,
    'ך' := 500,
    'ם' := 600,
    'ן' := 700,
    'ף' := 800,
    'ץ' := 900
  ]

  /** `BIBLE_DATA`: chapter count per book. */
  const BibleData: map<string, nat> := map[
    "Genesis" := 50,
    "Exodus" := 40,
    "Leviticus" := 27,
    "Numbers" := 36,
    "Deuteronomy" := 34,
    "Joshua" := 24,
    "Judges" := 21,
    "Ruth" := 4,
    "I Samuel" := 31,
    "II Samuel" := 24,
    "I Kings" := 22,
    "II Kings" := 25,
    "I Chronicles" := 29,
    "II Chronicles" := 36,
    "Ezra" := 10,
    "Nehemiah" := 13,
    "Esther" := 10,
    "Job" := 42,
    "Psalms" := 150,
    "Proverbs" := 31,
    "Ecclesiastes" := 12,
    "Song of Songs" := 8,
    "Isaiah" := 66,
    "Jeremiah" := 52,
    "Lamentations" := 5,
    "Ezekiel" := 48,
    "Daniel" := 12,
    "Hosea" := 14,
    "Joel" := 3,
    "Amos" := 9,
    "Obadiah" := 1,
    "Jonah" := 4,
    "Micah" := 7,
    "Nahum" := 3,
    "Habakkuk" := 3,
    "Zephaniah" := 3,
    "Haggai" := 2,
    "Zechariah" := 14,
    "Malachi" := 4
  ]

  /** `BIBLE_BOOKS = Object.keys(BIBLE_DATA)`, in declaration order. */
  const BibleBooks: seq<string> := [
    "Genesis",
    "Exodus",
    "Leviticus",
    "Numbers",
    "Deuteronomy",
    "Joshua",
    "Judges",
    "Ruth",
    "I Samuel",
    "II Samuel",
    "I Kings",
    "II Kings",
    "I Chronicles",
    "II Chronicles",
    "Ezra",
    "Nehemiah",
    "Esther",
    "Job",
    "Psalms",
    "Proverbs",
    "Ecclesiastes",
    "Song of Songs",
    "Isaiah",
    "Jeremiah",
    "Lamentations",
    "Ezekiel",
    "Daniel",
    "Hosea",
    "Joel",
    "Amos",
    "Obadiah",
    "Jonah",
    "Micah",
    "Nahum",
    "Habakkuk",
    "Zephaniah",
    "Haggai",
    "Zechariah",
    "Malachi"
  ]

  /** `LETTER_DETAILS`: the letter dictionary, in order. */
  const LetterDetails: seq<LetterDetail> := [
    LetterDetail('א', "Aleph", "🐮"),
    LetterDetail('ב', "Bet", "⛺"),
    LetterDetail('ג', "Gimel", "🐫"),
    LetterDetail('ד', "Dalet", "🚪"),
    LetterDetail('ה', "Hei", "🧘"),
    LetterDetail('ו', "Vav", "🪝"),
    LetterDetail('ז', "Zayin", "⚔️"),
    LetterDetail('ח', "Chet", "🚧"),
    LetterDetail('ט', "Tet", "🧺"),
    LetterDetail('י', "Yod", "💪"),
    LetterDetail('כ', "Kaf", "✋"),
    LetterDetail('ל', "Lamed", "🦯"),
    LetterDetail('מ', "Mem", "🌊"),
    LetterDetail('נ', "Nun", "🌱"),
    LetterDetail('ס', "Samekh", "🪵"),
    LetterDetail('ע', "Ayin", "👁️"),
    LetterDetail('פ', "Pe", "👄"),
    LetterDetail('צ', "Tsade", "🎣"),
    LetterDetail('ק', "Qof", "🌅"),
    LetterDetail('ר', "Resh", "👤"),
    LetterDetail('ש', "Shin", "🦷"),
    LetterDetail('ת', "Tav", "✝️")
  ]

  // ---------------------------------------------------------------- ordering helpers

  ghost predicate Increasing(s: seq<int>) {
    forall i, j :: 0 <= i < j < |s| ==> s[i] < s[j]
  }

  /** A sequence whose neighbours increase is increasing throughout. */
  lemma {:induction false} IncreasingFromNeighbours(s: seq<int>)
    requires forall i :: 0 <= i < |s| - 1 ==> s[i] < s[i + 1]
    ensures Increasing(s)
  {
    if |s| > 1 {
      IncreasingFromNeighbours(s[1..]);
      assert forall j :: 1 <= j < |s| ==> s[j] == s[1..][j - 1];
      forall j | 0 < j < |s| ensures s[0] < s[j] {
        if j > 1 {
          assert s[1..][0] < s[1..][j - 1];
        }
      }
    }
  }

  /** A sequence without repetitions has as many distinct elements as it is long. */
  lemma {:induction false} DistinctCardinality<T>(s: seq<T>)
    requires forall i, j :: 0 <= i < j < |s| ==> s[i] != s[j]
    ensures |set x | x in s| == |s|
  {
    if s != [] {
      DistinctCardinality(s[1..]);
      var rest := set x | x in s[1..];
      assert (set x | x in s) == rest + {s[0]};
      assert s[0] !in rest by {
        forall k | 0 <= k < |s[1..]| ensures s[1..][k] != s[0] {
          assert s[1..][k] == s[k + 1];
        }
      }
    }
  }

  function CodePoints(s: seq<char>): seq<int> {
    seq(|s|, i requires 0 <= i < |s| => s[i] as int)
  }

  // ---------------------------------------------------------------- properties of the tables

  /** The alphabet is in strictly increasing code-point order, so it has no repeated letter. */
  lemma AlphabetIncreasing()
    ensures |Alphabet| == 22
    ensures forall i, j :: 0 <= i < j < |Alphabet| ==> Alphabet[i] < Alphabet[j]
  {
    IncreasingFromNeighbours(CodePoints(Alphabet));
    assert forall i :: 0 <= i < |Alphabet| ==> CodePoints(Alphabet)[i] == Alphabet[i] as int;
  }

  lemma LetterTableKeys()
    ensures DefaultHebrewMap.Keys == set c | c in Alphabet
  {
  }

  lemma LetterTableEntries()
    ensures forall c :: c in DefaultHebrewMap ==> DefaultHebrewMap[c].letter == c
  {
  }

  /** `DEFAULT_HEBREW_MAP` has exactly the 22 alphabet letters as keys, and each entry's letter is its key. */
  lemma LetterTableShape()
    ensures DefaultHebrewMap.Keys == set c | c in Alphabet
    ensures |DefaultHebrewMap| == 22
    ensures forall c :: c in DefaultHebrewMap ==> DefaultHebrewMap[c].letter == c
  {
    LetterTableKeys();
    LetterTableEntries();
    AlphabetIncreasing();
    DistinctCardinality(Alphabet);
  }

  lemma FinalFormsTargets()
    ensures forall f :: f in SofitMap ==> SofitMap[f] in DefaultHebrewMap && f !in DefaultHebrewMap
  {
    forall f | f in SofitMap
      ensures SofitMap[f] in DefaultHebrewMap && f !in DefaultHebrewMap
    {
      FinalFormTarget(f);
    }
  }

  lemma FinalFormsOutsideAlphabet()
    ensures forall i :: 0 <= i < |FinalForms| ==> FinalForms[i] !in Alphabet
  {
  }

  lemma FinalFormsLandInAlphabet()
    ensures forall i :: 0 <= i < |FinalForms| ==> FinalForms[i] in SofitMap && SofitMap[FinalForms[i]] in Alphabet
  {
  }

  lemma FinalFormTarget(f: char)
    requires f in SofitMap
    ensures SofitMap[f] in DefaultHebrewMap && f !in DefaultHebrewMap
  {
    assert f in FinalForms;
    var i :| 0 <= i < |FinalForms| && FinalForms[i] == f;
    FinalFormsOutsideAlphabet();
    FinalFormsLandInAlphabet();
    LetterTableKeys();
  }

  /** `SOFIT_MAP` maps exactly the five final forms, each to a key of the letter table but none from one. */
  lemma FinalFormsShape()
    ensures SofitMap.Keys == set c | c in FinalForms
    ensures |SofitMap| == 5
    ensures forall f :: f in SofitMap ==> SofitMap[f] in DefaultHebrewMap
    ensures forall f :: f in SofitMap ==> f !in DefaultHebrewMap
  {
    assert SofitMap.Keys == set c | c in FinalForms;
    assert forall i, j :: 0 <= i < j < |FinalForms| ==> FinalForms[i] != FinalForms[j];
    DistinctCardinality(FinalForms);
    FinalFormsTargets();
  }

  /** The base letters and the final forms together are exactly the code points U+05D0..U+05EA. */
  lemma LetterBlockCovered(c: char)
    ensures InLetterBlock(c) <==> (c in DefaultHebrewMap || c in SofitMap)
  {
    if InLetterBlock(c) {
      var n := c as int;
      assert 0x5D0 <= n <= 0x5EA;
      assert c == n as char;
    }
  }

  /** The block U+05D0..U+05EA holds 27 code points: 22 base letters and 5 final forms. */
  lemma LetterBlockSize()
    ensures |DefaultHebrewMap.Keys + SofitMap.Keys| == 27
  {
    LetterTableShape();
    FinalFormsShape();
    assert DefaultHebrewMap.Keys !! SofitMap.Keys;
  }

  lemma GematriaKeys()
    ensures GematriaValues.Keys == DefaultHebrewMap.Keys + SofitMap.Keys
  {
  }

  /** The gematria values of the alphabet, in alphabet order. */
  const AlphabetValues: seq<int> := [1, 2, 3, 4, 5, 6, 7, 8, 9, 10, 20, 30, 40, 50, 60, 70, 80, 90, 100, 200, 300, 400]

  lemma GematriaOfAlphabetFirstHalf()
    ensures forall i :: 0 <= i < 11 ==> Alphabet[i] in GematriaValues && GematriaValues[Alphabet[i]] == AlphabetValues[i]
  {
  }

  lemma GematriaOfAlphabetSecondHalf()
    ensures forall i :: 11 <= i < 22 ==> Alphabet[i] in GematriaValues && GematriaValues[Alphabet[i]] == AlphabetValues[i]
  {
  }

  lemma GematriaOfAlphabet()
    ensures |AlphabetValues| == |Alphabet|
    ensures forall i :: 0 <= i < |Alphabet| ==> Alphabet[i] in GematriaValues && GematriaValues[Alphabet[i]] == AlphabetValues[i]
  {
    GematriaOfAlphabetFirstHalf();
    GematriaOfAlphabetSecondHalf();
  }

  lemma GematriaFinals()
    ensures forall i :: 0 <= i < |FinalForms| ==> FinalForms[i] in GematriaValues && GematriaValues[FinalForms[i]] == 500 + 100 * i
  {
  }

  lemma AlphabetValuesIncrease()
    ensures Increasing(AlphabetValues)
  {
    IncreasingFromNeighbours(AlphabetValues);
  }

  /** Gematria increases strictly in alphabet order from 1 to 400; the finals take 500 to 900. */
  lemma GematriaOrder()
    ensures GematriaValues.Keys == DefaultHebrewMap.Keys + SofitMap.Keys
    ensures forall c :: c in Alphabet ==> c in GematriaValues
    ensures forall c :: c in FinalForms ==> c in GematriaValues
    ensures forall i, j :: 0 <= i < j < |Alphabet| ==> GematriaValues[Alphabet[i]] < GematriaValues[Alphabet[j]]
    ensures GematriaValues[Alphabet[0]] == 1 && GematriaValues[Alphabet[21]] == 400
    ensures forall i :: 0 <= i < |FinalForms| ==> GematriaValues[FinalForms[i]] == 500 + 100 * i
  {
    GematriaKeys();
    GematriaOfAlphabet();
    GematriaFinals();
    AlphabetValuesIncrease();
  }

  /** `LETTER_AUDIO_MAP` is defined for exactly the 22 base letters. */
  lemma AudioCoversAlphabet()
    ensures LetterAudioMap.Keys == DefaultHebrewMap.Keys
  {
  }

  lemma BookListIsKeys()
    ensures BibleData.Keys == set b | b in BibleBooks
  {
  }

  lemma ChapterCountsPositive()
    ensures forall b :: b in BibleData ==> BibleData[b] >= 1
  {
  }

  /** `BIBLE_BOOKS` holds exactly the keys of `BIBLE_DATA`, 39 of them, and every book has a chapter. */
  lemma BibleDataShape()
    ensures BibleData.Keys == set b | b in BibleBooks
    ensures |BibleBooks| == 39
    ensures forall b :: b in BibleData ==> BibleData[b] >= 1
  {
    BookListIsKeys();
    ChapterCountsPositive();
  }

  lemma LetterDetailsFirstQuarter()
    ensures forall i :: 0 <= i < 6 ==>
      && LetterDetails[i].letter == Alphabet[i]
      && LetterDetails[i].name == DefaultHebrewMap[Alphabet[i]].name
      && LetterDetails[i].emoji == DefaultHebrewMap[Alphabet[i]].emoji
  {
  }

  lemma LetterDetailsSecondQuarter()
    ensures forall i :: 6 <= i < 11 ==>
      && LetterDetails[i].letter == Alphabet[i]
      && LetterDetails[i].name == DefaultHebrewMap[Alphabet[i]].name
      && LetterDetails[i].emoji == DefaultHebrewMap[Alphabet[i]].emoji
  {
  }

  lemma LetterDetailsThirdQuarter()
    ensures forall i :: 11 <= i < 17 ==>
      && LetterDetails[i].letter == Alphabet[i]
      && LetterDetails[i].name == DefaultHebrewMap[Alphabet[i]].name
      && LetterDetails[i].emoji == DefaultHebrewMap[Alphabet[i]].emoji
  {
  }

  lemma LetterDetailsLastQuarter()
    ensures forall i :: 17 <= i < 22 ==>
      && LetterDetails[i].letter == Alphabet[i]
      && LetterDetails[i].name == DefaultHebrewMap[Alphabet[i]].name
      && LetterDetails[i].emoji == DefaultHebrewMap[Alphabet[i]].emoji
  {
  }

  /** `LETTER_DETAILS` lists the alphabet in order, with the letter table's names and emoji. */
  lemma LetterDetailsAgree()
    ensures |LetterDetails| == |Alphabet|
    ensures forall i :: 0 <= i < |LetterDetails| ==>
      && LetterDetails[i].letter == Alphabet[i]
      && LetterDetails[i].name == DefaultHebrewMap[Alphabet[i]].name
      && LetterDetails[i].emoji == DefaultHebrewMap[Alphabet[i]].emoji
  {
    LetterDetailsFirstQuarter();
    LetterDetailsSecondQuarter();
    LetterDetailsThirdQuarter();
    LetterDetailsLastQuarter();
  }
}
