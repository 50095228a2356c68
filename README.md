# music_compas in Dafny

This project models the music-theory engine of music_compas, a set of Streamlit
pages for guitarists, together with the selection logic of its fretboard pages.

The engine is built on a fixed twelve-entry chromatic scale. Every derived note
is `chromatic_scale[(root_index + offset) % 12]`, and its degree label comes from
the unreduced offset. The model covers:

- the pitch tables (module `NoteSets`): the chromatic scale, the circle of
  fifths, the guitar-string rows, the mode and chord interval catalogues, and
  the sparse offset-to-degree table with its `'?'` fallback;
- chord and scale spelling: `calculate_chord_notes` and
  `get_scale_notes_and_degrees` (module `NoteSets`);
- the chord page (module `Chords`):
  - chord-name formatting;
  - related-chord classification into Superset, Subset and Shares;
  - the display of related notes;
  - the Roman-numeral table, chord-quality classification and
    progression-to-roots conversion;
- the scale finder (module `FretboardSelect`):
  - all 12 × 9 mode scales;
  - the search for scales containing a selection;
  - mode spelling and note colours;
  - the selection and history state, a class `NoteSelection`;
- the frequency fretboard (module `FretboardFreq`):
  - the pitch table with its reversed display order;
  - the splitting of note labels into name and frequency;
  - the two readers of the stored frequency text;
  - the append-if-absent selection and history, a class `FreqSelection`;
- the chord fretboard drawing (module `FretboardVisual`): enharmonic colour
  lookup, the fret-to-note rule `row[fret % 12]`, and the label rule. The model
  gives the list of marks the drawing places.
- the circle-of-fifths drawing (module `CircleOfFifths`):
  - root resolution by exact name or by one of its `/`-spellings;
  - the rotation `(root_index * -30) % 360`;
  - the first chord note naming each circle entry, and the label written there;
- shared helpers (module `Util`): Python's `str.split`, `str.join`, `str.replace`
  and `in` on strings, dictionary lookup in insertion order, list flattening,
  `list.remove`, and `list.index`.

Python dictionaries whose insertion order matters are sequences of key/value
pairs, read with `Util.Lookup`. Where the Python code loops and appends, the
model has a `method` with a loop, proved equal to a specification function.
The properties are then proved about that function.
The two selection states are classes whose methods update their fields in place.

Several tables appear in more than one source file:

- `chord_intervals`, `calculate_chord_notes` and `interval_to_degree` appear in
  both `note_sets.py` and `chords.py`;
- the chromatic scale and the guitar table appear in `note_sets.py`,
  `fretboard_select.py` and `fretboard_visual.py`.

The copies are identical except for the mode table of `fretboard_select.py`,
which has Phrygian Dominant and no Melodic Minor. The identical copies are
defined once, in `NoteSets`. The differing mode table is
`FretboardSelect.LocalModeIntervals`.

Operations that close over a module-level table take that table as a
parameter: the scale and modes of the scale finder, the circle of the drawing,
and the string table and colour map of the fretboard drawing. Lemmas then
state what holds for the repository's own tables.

## Model

| member | source | states |
|---|---|---|
| NoteSets.ChromaticScaleDistinct | note_sets.py:20-22 | the chromatic scale has 12 distinct entries |
| NoteSets.IndexOfChromatic | note_sets.py:20-22 | `index` of the k-th chromatic name is k |
| NoteSets.CircleOfFifthsSteps | note_sets.py:13 | the circle has 12 entries and entry k is `chromatic_scale[(5*k) % 12]` |
| NoteSets.CircleOfFifthsIsPermutation | note_sets.py:13-22 | the circle has no duplicates and holds every chromatic name: chromatic name j sits at circle position `(5*j) % 12` |
| NoteSets.ClimbsFromOpenString | note_sets.py:1-8 | a row climbing from chromatic index k starts on that note, k is `index(open)`, and fret 12 repeats the open string |
| NoteSets.GuitarRowsAreChromatic | note_sets.py:1-8 | the six rows each have 13 frets, and fret f of each is `chromatic_scale[(index(open)+f) % 12]` for the open notes E, A, D, G, B, E |
| NoteSets.ModeIntervalsWellFormed | note_sets.py:25-37 | every mode has 7 offsets, strictly ascending from 0 and below 12 |
| NoteSets.ChordTypes | note_sets.py:43-60 | the 16 chord type names in catalogue order |
| NoteSets.ChordTypesDistinct | note_sets.py:43-60 | no chord type name repeats, so a lookup finds the entry's own row |
| NoteSets.ChordIntervalsOf | note_sets.py:75 | the offsets looked up for a chord type are a row of the catalogue with that name |
| NoteSets.ChordIntervalsOfEntry | note_sets.py:75 | looking up a row's name gives that row's offsets |
| NoteSets.ChordIntervalsWellFormed | note_sets.py:43-60 | every chord has at least two offsets, strictly ascending from the root 0 |
| NoteSets.ChordIntervalsLabelled | note_sets.py:43-60 | every chord offset has an entry in the degree table, so no chord degree is `'?'` |
| NoteSets.IntervalToDegree | note_sets.py:87-111 | the label is the table entry for a listed offset, and `'?'` for exactly the others: negatives, 16, 19 and everything above 21 |
| NoteSets.FindRootIndex | note_sets.py:66-71 | the search returns the exact position of a chromatic name and -1 for any other string |
| NoteSets.SpellIntervals | note_sets.py:76-82 | the append loop builds the parallel lists of `Spell` |
| NoteSets.Spell | note_sets.py:76-82 | one note and one label per offset, in order: note i is `chromatic_scale[(root_index + iv[i]) % 12]` and label i is the degree of `iv[i]` |
| NoteSets.SpellOnRoot | note_sets.py:66-82 | offsets spelled on a root given by name: `([], [])` for a name outside the 12, otherwise `Spell` from its index (stated by `NoteSets.SpellChordOnRoot`) |
| NoteSets.ChordSpelling | note_sets.py:64-83 | what `calculate_chord_notes` returns; its meaning is stated by `NoteSets.ChordSpellingMeaning` and `NoteSets.ChordSpellingStartsOnRoot` |
| NoteSets.CalculateChordNotes | note_sets.py:64-83 | the result is `([], [])` for a root that is not one of the 12 names; otherwise it is the spelling of the chord's offsets on the root |
| NoteSets.ChordSpellingMeaning | note_sets.py:64-83 | an unknown root gives `([], [])`; on a known root there is one note and one degree per catalogue offset, note i is the chromatic name `iv[i]` semitones above the root, so one of the 12 names, and degree i is the label of `iv[i]` (`NotesFrom`, `DegreesFrom`) |
| NoteSets.SpellMeaning | note_sets.py:76-82 | a spelling from position r has note i equal to `chromatic_scale[(r + iv[i]) % 12]`, always one of the 12 names, and label i equal to the degree of `iv[i]` |
| NoteSets.ChordSpellingStartsOnRoot | note_sets.py:72-83 | on a known root every chord has at least two notes and the first one is the root |
| NoteSets.ChordOffsetsStartAtZero | note_sets.py:43-60 | the offsets of a catalogued chord type begin with 0 and have at least two entries |
| NoteSets.SpellStartsOnRoot | note_sets.py:76-82 | offsets starting at 0 spell the root's own name first |
| NoteSets.SpellChordOnRoot | chords.py:154 | spelling given offsets on a root: `([], [])` for an unknown root, otherwise `Spell` from its index |
| NoteSets.CatalogueSpelling | chords.py:154 | spelling a catalogue row's offsets is what `calculate_chord_notes` returns for that row's name |
| NoteSets.Add9KeepsNinth | chords.py:70 | C add9 is C, E, G, D with degrees R, 3, 5, 9: the 14 is labelled 9, not 2 |
| NoteSets.GetScaleNotesAndDegrees | note_sets.py:145-159 | the notes and degrees are the spelling, on `index(root)`, of the offsets chosen by mode and direction |
| NoteSets.ScaleIntervals | note_sets.py:147-149 | the offsets chosen by mode and direction; stated by `NoteSets.UnknownModeIsEmpty`, `NoteSets.DirectionIgnoredOutsideMelodicMinor` and `NoteSets.MelodicMinorDescends` |
| NoteSets.UnknownModeIsEmpty | note_sets.py:147-149 | a mode name missing from the table gives no offsets, in either direction, and so an empty result |
| NoteSets.DescendingPreimage | note_sets.py:148 | a name whose "Descending" rewrite is in the table is itself in the table |
| NoteSets.AscendingRewrittenIsMelodicMinor | note_sets.py:148 | the only name holding "Ascending" whose "Descending" rewrite is in the table is "Melodic Minor Ascending" |
| NoteSets.DescendingLookupOfUnknown | note_sets.py:148 | the "Descending" rewrite of a name missing from the table is missing too |
| NoteSets.DirectionIgnoredOutsideMelodicMinor | note_sets.py:148 | a name without "Melodic Minor" gives the same offsets in both directions |
| NoteSets.MelodicMinorDescends | note_sets.py:148-149 | "Melodic Minor Ascending" gives `[0,2,3,5,7,9,11]` ascending and `[0,2,4,5,7,8,10]` descending |
| NoteSets.ShiftOnIndex | note_sets.py:79-80 | shifting the note at r of a 12-name scale by an offset gives the note at `(r + offset) % 12` |
| NoteSets.Transpose | note_sets.py:79-80 | the chromatic name `interval` semitones above the key; stated by `NoteSets.TransposeIndex`, `NoteSets.TransposeOctaves` and `NoteSets.TransposeMoves` |
| NoteSets.TransposeIndex | note_sets.py:79-80 | transposing the k-th chromatic name gives `chromatic_scale[(k + offset) % 12]` |
| NoteSets.ShiftOnOctaves | note_sets.py:79-80 | a shift returns the starting note if and only if the offset is a multiple of 12 |
| NoteSets.TransposeOctaves | note_sets.py:79-80 | transposition returns the key if and only if the offset is a multiple of 12 |
| NoteSets.TransposeMoves | note_sets.py:79-80 | an offset that is not a whole number of octaves never lands back on the key |
| Chords.Capitalize | chords.py:130 | `capitalize` keeps the length, upper-cases the first letter and lower-cases the rest |
| Chords.FormatChordName | chords.py:129-130 | `replace("_", " ").capitalize()`; stated by `Chords.FormatChordNamePointwise` and `Chords.FormatChordNameIdempotent` |
| Chords.FormatChordNamePointwise | chords.py:129-130 | each underscore becomes a space, the first character is upper-cased and the others are lower-cased |
| Chords.FormatChordNameIdempotent | chords.py:129-130 | formatting a formatted name changes nothing |
| Chords.FormatMajorSeventh | chords.py:129-130 | "major_7th" is shown as "Major 7th" |
| Chords.Relation | chords.py:145-150 | Superset iff the selected set is included in the other; Subset iff not, and the other is included in it; Shares iff neither and they meet; no bucket iff they are disjoint and neither is included |
| Chords.RootedRelation | chords.py:145-150 | two chords that both contain the root offset 0 always land in some bucket |
| Chords.RelatedUpTo | chords.py:141-155 | the bucket built from the first n table rows; stated by `Chords.RelatedUpToMembers` |
| Chords.Related | chords.py:141-155 | the bucket built from the whole table; stated by `Chords.RelatedUpToMembers`, `Chords.SelectedNeverListed` and `Chords.ExactlyOneBucket` |
| Chords.RelatedUpToMembers | chords.py:141-155 | an entry is in a bucket iff it comes from a table row other than the selected type, whose relation is that bucket, paired with that row's spelling |
| Chords.SelectedNeverListed | chords.py:142 | the selected chord type is in no bucket |
| Chords.ExactlyOneBucket | chords.py:141-155 | with distinct names and rooted offsets, every other row has a relation and appears, spelled, in its bucket |
| Chords.FindRelatedChordsCategorized | chords.py:133-157 | the loop produces the three buckets in table order |
| Chords.CatalogueRooted | chords.py:57-74 | every catalogue chord contains the root offset 0 |
| Chords.CatalogueBuckets | chords.py:133-157 | for the catalogue, every other chord type lands in its bucket with its `calculate_chord_notes` spelling |
| Chords.MajorRelations | chords.py:139-157 | relative to major, major_7th is a Superset, power a Subset and minor shares intervals |
| Chords.DecorateNotes | chords.py:170-176 | one shown entry per related note, in order, each decorated by its own membership |
| Chords.DecoratesExactlyAbsent | chords.py:171-175 | an entry is shown unchanged iff its note is selected; an unselected note appears between " .." and ".. " |
| Chords.FormatChordNotesForDisplay | chords.py:164-178 | the text is the decorated notes joined by two spaces |
| Chords.IsNoteInChord | chords.py:159-160 | list membership; its use in the display is stated by `Chords.DecoratesExactlyAbsent` |
| Chords.AllSelectedShowsPlain | chords.py:169-178 | when every related note is selected the text is the plain two-space join |
| Chords.NumeralInterval | chords.py:279-282 | the interval of the first degree listing the numeral, or none; stated by `Chords.NumeralIntervalFromMeaning`, `Chords.FirstListing` and `Chords.NumeralsResolve` |
| Chords.NumeralIntervalFromMeaning | chords.py:279-282 | no interval iff no later degree lists the numeral; otherwise the interval of the first degree that does |
| Chords.FirstListing | chords.py:279-282 | the search finds the first degree listing the numeral |
| Chords.FindNumeralInterval | chords.py:279-282 | the loop with `break` returns the first listing's interval, or none |
| Chords.NumeralsDistinct | chords.py:221-229 | no numeral is listed under two degrees |
| Chords.NumeralsResolve | chords.py:221-229 | every listed numeral looks up to its own degree's interval |
| Chords.NumeralsBareAndShort | chords.py:221-229 | every listed numeral is made only of I and V letters, upper or lower case, and has at most three of them |
| Chords.ChordTypeFromPart | chords.py:231-264 | the quality of a progression part; stated by `Chords.ChordTypeFromPartRange`, `Chords.ChordTypeFromPartCatalogued` and `Chords.QualityPriority` |
| Chords.ChordTypeFromPartRange | chords.py:231-264 | the classification always returns one of 14 chord type names |
| Chords.ChordTypeFromPartCatalogued | chords.py:231-264 | the returned name is always a catalogue chord type |
| Chords.QualityPriority | chords.py:232-235 | "m6" anywhere gives minor_6th; otherwise a lower-case ASCII first letter gives minor, and minor is returned only then |
| Chords.BareNumeralQuality | chords.py:234-264 | a bare numeral is minor when its first letter is lower case and major otherwise |
| Chords.LowerNumeralIsMinor | chords.py:234-235 | "ii7" is classified minor: the lower-case test comes before the seventh tests |
| Chords.HalfDiminishedBeforeSeventh | chords.py:237-248 | "Vm7(b5)" is half_diminished_7th: that test runs before the "m7" and "7" tests |
| Chords.TwoFiveOneQualities | chords.py:231-264 | "ii", "V", "I" are minor, major, major |
| Chords.CleanPart | chords.py:275 | the four `replace` calls in source order; stated by `Chords.CleanBareNumeral` and `Chords.MajorSeventhFallsBack` |
| Chords.PartRoot | chords.py:276-292 | the root of one progression part; stated by `Chords.PartRootNote` and `Chords.BareNumeralRoot` |
| Chords.PartRootNote | chords.py:275-292 | a part's root is the key transposed by the interval of its cleaned numeral, or the key itself when the cleaned part is no numeral |
| Chords.ProgressionToRootNotes | chords.py:268-294 | one root per `-`-separated part, in input order, each the root of its part |
| Chords.CleanBareNumeral | chords.py:275 | cleaning leaves a bare numeral unchanged |
| Chords.BareNumeralRoot | chords.py:275-289 | a listed bare numeral's root is the key transposed by its degree's interval |
| Chords.TwoFiveOneRoots | chords.py:268-294 | in any key, "ii-V-I" gives the key up 2, up 7 and the key itself (D, G, C in C) |
| Chords.MajorSeventhFallsBack | chords.py:275-292 | as written, "IVmaj7" is cleaned to "IVaj", which is no numeral, so its root falls back to the key |
| Chords.NumeralPrefixOf | chords.py:275 | the corrected cleaning reads the numeral prefix of a part: a numeral followed by a non-numeral suffix gives the numeral |
| Chords.IntendedPartRoot | chords.py:275-289 | the root read from the numeral prefix of a part; stated by `Chords.IntendedRootKeepsDegree`, `Chords.IntendedAgreesOnBareNumerals` and `Chords.MajorSeventhIntended` |
| Chords.IntendedRootKeepsDegree | chords.py:275-289 | with the corrected cleaning, any listed numeral followed by a quality suffix gives its degree's root |
| Chords.IntendedAgreesOnBareNumerals | chords.py:275-292 | the corrected and the written cleaning agree on bare numerals |
| Chords.MajorSeventhIntended | chords.py:275-289 | with the corrected cleaning, "IVmaj7" gives the key up 5, which differs from the key |
| FretboardSelect.NotesOn | fretboard_select.py:37 | one note per offset, note i the scale note `iv[i]` steps above the root |
| FretboardSelect.NotesOnIndex | fretboard_select.py:37 | on a 12-name scale, note i from the root at r is `scale[(r + iv[i]) % 12]` |
| FretboardSelect.NotesOnChromatic | fretboard_select.py:37 | on the chromatic scale, a mode's notes are the notes `calculate_chord_notes` would spell |
| FretboardSelect.GenerateAllModesScales | fretboard_select.py:32-39 | one entry per root in scale order, each with one scale per mode in table order, holding the mode's notes on that root |
| FretboardSelect.FindScalesForNotes | fretboard_select.py:44-50 | the loop returns the "root mode" labels of the matching scales, ordered by root and then by mode |
| FretboardSelect.RootMatchesMembers | fretboard_select.py:47-49 | a label is listed for a root iff it names a mode of that root whose notes contain every selected note |
| FretboardSelect.MatchingMembers | fretboard_select.py:44-50 | a label is listed iff it names some root and mode whose scale contains every selected note |
| FretboardSelect.EmptySelectionMatchesAll | fretboard_select.py:44-50 | with nothing selected, every one of the roots × modes scales is listed |
| FretboardSelect.EmptySelectionLists108 | fretboard_select.py:32-50 | with the 12 roots and the 9 local modes, an empty selection lists 108 scales |
| FretboardSelect.ScaleNameSplits | fretboard_select.py:201 | `split(' ', 1)` of a label whose root has no space gives back the root and the whole mode name |
| FretboardSelect.ChromaticNamesHaveNoSpace | fretboard_select.py:8 | no chromatic name contains a space |
| FretboardSelect.MatchedScaleResolves | fretboard_select.py:200-202 | every listed label splits into a root of the scale and a mode that the mode table knows |
| FretboardSelect.HistorySearchNeedsEveryNote | fretboard_select.py:216-218 | a scale matches the flattened history iff it contains every note of every history entry |
| FretboardSelect.EffectiveModeName | fretboard_select.py:56-57 | an ascending request keeps the mode name |
| FretboardSelect.CalculateModeNotes | fretboard_select.py:54-66 | the notes are the mode's offsets reached from the root modulo 12; the degrees are the raw offsets |
| FretboardSelect.MelodicMinorNotLocal | fretboard_select.py:56-58 | a "Melodic Minor" name misses the local table in either direction |
| FretboardSelect.LocalModesNotMelodic | fretboard_select.py:9-19 | no local mode name contains "Melodic Minor" |
| FretboardSelect.LocalModesWellFormed | fretboard_select.py:9-19 | the local table has 9 modes, each with 7 strictly ascending offsets from 0 below 12 |
| FretboardSelect.GetNoteColor | fretboard_select.py:188-194 | the colour of a note; stated by `FretboardSelect.GreyExactlyUnselected`, `FretboardSelect.PositionColor` and `FretboardSelect.SelectedColorsDistinct` |
| FretboardSelect.GreyExactlyUnselected | fretboard_select.py:188-194 | a note is grey iff it is not selected |
| FretboardSelect.SelectedColorsNotGrey | fretboard_select.py:178-185 | the five selection colours are distinct and none is the grey |
| FretboardSelect.PositionColor | fretboard_select.py:191 | in a selection without duplicates, the note at a position i below 5 gets colour i |
| FretboardSelect.SelectedColorsDistinct | fretboard_select.py:188-191 | two different selected notes get different colours |
| FretboardSelect.NoteSelection.constructor | fretboard_select.py:73-77 | the session starts with an empty selection and an empty history |
| FretboardSelect.NoteSelection.Toggle | fretboard_select.py:129-132 | a selected note is removed; an unselected note is appended only while fewer than 5 are selected; the history is unchanged; at most 5 notes and no duplicates hold throughout |
| FretboardSelect.NoteSelection.Clear | fretboard_select.py:238-242 | a non-empty selection is appended to the history and emptied; an empty one changes nothing |
| FretboardSelect.NoteSelection.Reset | fretboard_select.py:244-247 | both the selection and the history become empty |
| FretboardSelect.NoteSelection.HistoryNotesMembers | fretboard_select.py:216 | a note is in the flattened history iff it is in some history entry |
| FretboardFreq.TableShape | fretboard_select_FREQ.py:111-120 | 6 string names and 6 rows of 13 entries |
| FretboardFreq.RowNamesMatchGuitar | fretboard_select_FREQ.py:112-120 | each row's string name and note names are those of the plain guitar table |
| FretboardFreq.RowNumbersPlain | fretboard_select_FREQ.py:114-119 | no frequency number in any row contains a space or an opening parenthesis |
| FretboardFreq.DisplayStrings | fretboard_select_FREQ.py:145 | the displayed strings are the six names reversed |
| FretboardFreq.OriginalStringIndex | fretboard_select_FREQ.py:152 | display row i reads table row `len - 1 - i`, which is a valid row |
| FretboardFreq.DisplayRowMatchesString | fretboard_select_FREQ.py:145-153 | display row i names the string whose table row it reads, and the index mapping is its own inverse |
| FretboardFreq.NoteName | fretboard_select_FREQ.py:155-157 | every word of a label but the last two, joined by spaces; stated by `FretboardFreq.LabelParts` |
| FretboardFreq.FrequencyToken | fretboard_select_FREQ.py:158 | the next-to-last word of a label; stated by `FretboardFreq.LabelParts` |
| FretboardFreq.LabelParts | fretboard_select_FREQ.py:155-158 | a label "name (hz Hz)" splits into the name's parts, "(hz" and "Hz)": the note name is the name and the token is "(hz" |
| FretboardFreq.WaveFrequencyText | fretboard_select_FREQ.py:34 | the text after the first `(` up to the next space; stated by `FretboardFreq.FrequencyRoundTrip` and `FretboardFreq.ReadersAgreeOnButtons` |
| FretboardFreq.HistoryFrequencyText | fretboard_select_FREQ.py:76 | the first word without its first character; stated by `FretboardFreq.FrequencyRoundTrip` and `FretboardFreq.ReadersAgreeOnButtons` |
| FretboardFreq.FrequencyRoundTrip | fretboard_select_FREQ.py:34 | the number the checkbox loop reads back, and the history display at line 76, is the stored frequency |
| FretboardFreq.ButtonRecordMeaning | fretboard_select_FREQ.py:160-167 | the record of a button holds the entry's note name, the displayed string, the fret, and a frequency both readers read as the table's number |
| FretboardFreq.ReadersAgreeOnButtons | fretboard_select_FREQ.py:166 | for every button, both readers of the stored frequency give the same text |
| FretboardFreq.DisplayedFrequencies | fretboard_select_FREQ.py:33-42 | the frequencies of the ticked records, in selection order |
| FretboardFreq.AllTickedListsAll | fretboard_select_FREQ.py:33-42 | with every box ticked, each selected record contributes its own frequency, in order |
| FretboardFreq.HistoryFrequencies | fretboard_select_FREQ.py:76 | one frequency text per record of a history chord, in order |
| FretboardFreq.FreqSelection.constructor | fretboard_select_FREQ.py:123-127 | the session starts with an empty selection and an empty history |
| FretboardFreq.FreqSelection.Press | fretboard_select_FREQ.py:160-169 | the record is appended only if absent, with no size cap; the history is unchanged and no record repeats |
| FretboardFreq.FreqSelection.Clear | fretboard_select_FREQ.py:173-177 | a non-empty selection is appended to the history and emptied; an empty one changes nothing |
| FretboardFreq.FreqSelection.Reset | fretboard_select_FREQ.py:180-184 | both lists end empty |
| FretboardVisual.GetNoteColor | fretboard_visual.py:29-40 | the colour of a fretboard note; stated by `FretboardVisual.GetNoteColorCases` and `FretboardVisual.FlatNameTakesKeyColor` |
| FretboardVisual.GetNoteColorCases | fretboard_visual.py:29-40 | an exact key gives its colour; otherwise the first key, in dict order, whose `/`-split holds the note gives its colour; with neither, the colour is `#FFFFFF` |
| FretboardVisual.FlatNameTakesKeyColor | fretboard_visual.py:35-37 | a flat spelling such as "Bb" takes the colour of the first key "A#/Bb" that spells it |
| FretboardVisual.NoteAtFret | fretboard_visual.py:49 | `row[fret % 12]`; stated by `FretboardVisual.OctaveFretsRepeat` and `FretboardVisual.FretNoteClimbs` |
| FretboardVisual.OctaveFretsRepeat | fretboard_visual.py:48-49 | the note at fret f + 12 is the note at fret f, so frets 12 to 14 repeat 0 to 2 |
| FretboardVisual.FretNoteClimbs | fretboard_visual.py:48-49 | on a climbing row, the note at any fret is `chromatic_scale[(index(open) + fret) % 12]` |
| FretboardVisual.FretLabel | fretboard_visual.py:50-54 | a label is produced iff the note is in the chord, and without degrees it is the note itself |
| FretboardVisual.DegreeLabelsAlign | fretboard_visual.py:54 | with degrees shown, a chord note's label is the degree at its first position |
| FretboardVisual.FretMarkMembers | fretboard_visual.py:48-57 | a fret carries a mark iff its note is in the chord; the mark has that fret's label and the note's colour |
| FretboardVisual.StringMarksMembers | fretboard_visual.py:48-57 | a string carries exactly the marks of its drawn frets whose note is in the chord |
| FretboardVisual.DrawStringMarks | fretboard_visual.py:48-57 | the inner loop places, fret by fret, the marks of one string |
| FretboardVisual.GuitarFretboardMarks | fretboard_visual.py:43-57 | the outer loop places, string by string, the marks of the whole fretboard |
| FretboardVisual.GuitarTableDrawable | fretboard_visual.py:8-15 | the table names the strings E_low, A, D, G, B, E_high in drawing order, each with at least 12 frets |
| CircleOfFifths.RootPosition | circle_of_fifths.py:19-26 | the exact position of the root, else the first entry whose `/`-split holds it; none iff neither exists |
| CircleOfFifths.ResolveRootIndex | circle_of_fifths.py:19-26 | the `try`/`index` and the fallback loop compute `RootPosition` |
| CircleOfFifths.Rotation | circle_of_fifths.py:28 | the rotation lies in [0, 360) and is a multiple of 30 |
| CircleOfFifths.RootDrawnAtTop | circle_of_fifths.py:28-33 | after rotation, entry i sits at angle 0 (the top, once the drawing adds 90) iff it is the root's entry |
| CircleOfFifths.ChromaticRootPosition | circle_of_fifths.py:19-20 | every chromatic name j is found exactly, at circle position `(5*j) % 12` |
| CircleOfFifths.FirstEntryUnrotated | circle_of_fifths.py:20-28 | the first entry resolves to position 0 and gives rotation 0 |
| CircleOfFifths.CircleStartsAtC | note_sets.py:13 | the circle starts at C, so root C gives rotation 0 |
| CircleOfFifths.SpelledRootPosition | circle_of_fifths.py:23-26 | a flat spelling such as "Bb" resolves to the entry "A#/Bb" that spells it |
| CircleOfFifths.FirstMatch | circle_of_fifths.py:40-44 | no match iff no chord note names the entry; otherwise the first chord note that does |
| CircleOfFifths.MatchChordNote | circle_of_fifths.py:37-44 | the loop with `break` returns the first chord note equal to the entry or to one of its spellings |
| CircleOfFifths.MatchedIndexIsFirst | circle_of_fifths.py:47 | `chord_notes.index(matched)` is the position where the search stopped |
| CircleOfFifths.LabelOf | circle_of_fifths.py:46-51 | every label keeps the entry's name |
| CircleOfFifths.LabelMeaning | circle_of_fifths.py:46-51 | an entry carries a degree iff its first naming chord note exists and is not the empty string |
| CircleOfFifths.LabelShowsDegree | circle_of_fifths.py:46-48 | an entry first named at chord position j shows degree j |
| CircleOfFifths.CircleLabels | circle_of_fifths.py:32-51 | one label per circle entry, in circle order |
| CircleOfFifths.DrawCircleOfFifths | circle_of_fifths.py:10-51 | the drawing's rotation comes from the resolved root, and its labels are those of every entry |

## Left out

- app.py is not part of this model. It only wires Streamlit widgets to the engine.
- Streamlit calls, HTML and CSS strings, placeholders and buttons are not modelled. Button presses become method calls on the selection classes, and the checkbox values are the `displayed` parameter of `DisplayedFrequencies`.
- `print` calls are not modelled.
- matplotlib drawing is not modelled, including the float angle and cos/sin position maths of circle_of_fifths.py:33-34. The model keeps the rotation in whole degrees and, for the fretboard, the list of marks (string, fret, text, colour).
- `SineWave`, `combine_waves` and the `float(...)` conversions of frequency text are numpy floating point (fretboard_select_FREQ.py:7-23, 34, 76). The model stops at the text handed to `float`.
- The colour palettes, `chord_symbols`, and `mode_descriptions` are presentation data (chords.py:11-54, 201-218; note_sets.py:114-143). The colour map of the fretboard drawing is a parameter.
- `show_related_chords_section` (chords.py:186-195) is display glue. Its helper `format_chord_notes_for_display` is modelled on plain note lists.
- No borrowed-chord or modal-interchange deriver appears in the source files, so none is modelled.
- An unknown chord type is a precondition, because `chord_intervals[chord_type]` raises (chords.py:89, note_sets.py:75).
- `chromatic_scale.index(root)` raises on an unknown root. This makes `root in ChromaticScale` a precondition of `GetScaleNotesAndDegrees`, `CalculateModeNotes` and every numeral part of `ProgressionToRootNotes`.
- A circle root that matches no entry leaves `root_index` unbound in the source, so it is a precondition of `ResolveRootIndex` and `DrawCircleOfFifths`. Likewise a matched note with no degree at its position raises in the source, so `DegreeFound` is a precondition of the labels.
- FretboardVisual.GuitarFretboardMarks: requires every drawn fret's label to be defined (`TableDrawable`). The source would raise on a chord note with no degree when degrees are shown.
- Chords.Capitalize: handles ASCII letters only; Python's `capitalize` also maps other Unicode letters.
- Chords.QualityPriority: "lower-case first letter" means an ASCII letter a-z (`IsLowerChar`). Python's `islower()` at chords.py:234 also holds for other lower-case Unicode letters, such as the "ø" of "ø7", which the source classifies as minor and the model does not.
- Chords.ChordTypeFromPart: the lower-case test `IsLowerChar` (chords.py:234) covers ASCII letters only, so a part starting with another lower-case Unicode letter is classified by the later tests instead of as minor. The all-capitals test `IsUpperText` (`part.isupper()`, chords.py:261) is ASCII-only too, but both of its outcomes give major, so it cannot change the result.
- Chords.IsLowerChar: ASCII a-z only, where Python's `islower()` accepts every lower-case Unicode letter.
- FretboardFreq.TableShape: the pitch table is stored as (name, hertz) pairs rendered by `Label` into the source's "name (hertz Hz)" strings, rather than as the literal strings.
- NoteSets.SpellChordOnRoot: the related-chord search spells each entry from the offsets of the table it was given, while the source calls `calculate_chord_notes` on the entry's name. This is the same for the only table the source passes (`NoteSets.CatalogueSpelling`).
- Chords.PartRootNote: the root is computed as a transposition, which is `chromatic_scale[(index(key) + interval) % 12]` by `NoteSets.TransposeIndex`, not as the source's literal index arithmetic.
- The rotation uses Dafny's Euclidean `%`, and Python's is floored. The two agree for the positive divisor 360 used here.
- Duplicate tables are defined once. The chord page's copies (among them `calculate_chord_notes` at chords.py:78-97 and `interval_to_degree` at chords.py:101-125), and the scale finder's chromatic-scale and guitar-table copies, are identical to `note_sets.py`.
- Concurrency and Streamlit reruns are not modelled. Each button press is one method call on one session.

## Findings

| source | as written | input that shows it | evidently intended | confidence | as-written member | corrected member |
|---|---|---|---|---|---|---|
| chords.py:275 | the cleaning removes "m6", "m", "M" and "7" only, so "maj7" leaves "aj" behind and the part is no numeral | key "C", progression part "IVmaj7": cleaned to "IVaj", root falls back to C; the same fallback hits "Vdim" (cleaned to "Vdi"), "Vsus4", "Iadd9", "Vaug" and "IVm7(b5)" (cleaned to "IV(b5)") | the root of the part's numeral, F (the key up 5); `get_chord_type_from_part` itself accepts "maj7" at chords.py:245; Chords.IntendedRootKeepsDegree proves the corrected root for every listed numeral followed by any quality suffix | not executed | Chords.MajorSeventhFallsBack | Chords.IntendedPartRoot |
