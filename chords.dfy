/** Chord naming, related-chord classification, note display and Roman-numeral
    progressions. The chord table, `calculate_chord_notes` and
    `interval_to_degree` of this file are the ones of `NoteSets`; they are not
    repeated here. */
module Chords {
  import opened Util
  import opened NoteSets

  // ---------------------------------------------------------------------
  // format_chord_name

  /** ASCII upper case of one character (other characters are unchanged). */
  function UpperChar(c: char): (r: char)
    ensures 'a' <= c <= 'z' ==> 'A' <= r <= 'Z' && r as int == c as int - 32
    ensures !('a' <= c <= 'z') ==> r == c
  {
    if 'a' <= c <= 'z' then (c as int - 32) as char else c
  }

  /** ASCII lower case of one character. */
  function LowerChar(c: char): (r: char)
    ensures 'A' <= c <= 'Z' ==> 'a' <= r <= 'z' && r as int == c as int + 32
    ensures !('A' <= c <= 'Z') ==> r == c
  {
    if 'A' <= c <= 'Z' then (c as int + 32) as char else c
  }

  /** Python `str.capitalize` on ASCII text: the first character in upper case,
      all others in lower case. */
  function Capitalize(s: string): (r: string)
    ensures |r| == |s|
    ensures |s| > 0 ==> r[0] == UpperChar(s[0])
    ensures forall i :: 1 <= i < |s| ==> r[i] == LowerChar(s[i])
  {
    if |s| == 0 then ""
    else [UpperChar(s[0])] + seq(|s| - 1, i requires 0 <= i < |s| - 1 => LowerChar(s[i + 1]))
  }

  /** A chord type name for display: underscores become spaces, then the name
      is capitalized. */
  function FormatChordName(chordName: string): string
  {
    Capitalize(ReplaceAll(chordName, "_", " "))
  }

  /** Position by position: the first character upper-cased, the rest
      lower-cased, and every underscore turned into a space, so none is left. */
  lemma FormatChordNamePointwise(chordName: string)
    ensures var r := FormatChordName(chordName);
            |r| == |chordName| && '_' !in r &&
            (|chordName| > 0 ==> r[0] == UpperChar(if chordName[0] == '_' then ' ' else chordName[0])) &&
            forall i :: 1 <= i < |r| ==> r[i] == LowerChar(if chordName[i] == '_' then ' ' else chordName[i])
  {
    ReplaceChar(chordName, '_', ' ');
  }

  /** Formatting an already formatted name changes nothing. */
  lemma FormatChordNameIdempotent(chordName: string)
    ensures FormatChordName(FormatChordName(chordName)) == FormatChordName(chordName)
  {
    var r := FormatChordName(chordName);
    FormatChordNamePointwise(chordName);
    FormatChordNamePointwise(r);
    ReplaceChar(r, '_', ' ');
    assert ReplaceAll(r, "_", " ") == r;
  }

  lemma FormatMajorSeventh(name: string)
    requires name == "major_7th"
    ensures FormatChordName(name) == "Major 7th"
  {
    FormatChordNamePointwise(name);
    var r := FormatChordName(name);
    assert r[0] == 'M' && r[1] == 'a' && r[2] == 'j' && r[3] == 'o' && r[4] == 'r';
    assert r[5] == ' ' && r[6] == '7' && r[7] == 't' && r[8] == 'h';
  }

  // ---------------------------------------------------------------------
  // find_related_chords_and_notes_categorized

  type Spelling = (seq<string>, seq<string>)

  /** The three buckets, named in the source "Superset", "Subset" and
      "Shares common intervals with". */
  datatype Category = Superset | Subset | Shares

  /** Python `set(intervals)`. */
  function SetOf(iv: seq<int>): set<int>
  {
    set x | x in iv
  }

  /** The bucket of a chord whose offsets are `other`, relative to the selected
      chord's offsets: tested in the order superset, subset, common offset. */
  function Relation(selected: set<int>, other: set<int>): (r: Option<Category>)
    ensures r == Some(Superset) <==> selected <= other
    ensures r == Some(Subset) <==> !(selected <= other) && other <= selected
    ensures r == Some(Shares) <==> !(selected <= other) && !(other <= selected) && selected * other != {}
    ensures r == None <==> !(selected <= other) && !(other <= selected) && selected * other == {}
  {
    if selected <= other then Some(Superset)
    else if other <= selected then Some(Subset)
    else if selected * other != {} then Some(Shares)
    else None
  }

  /** The bucket of entry `i` of `table` with respect to `selectedType`. */
  function EntryRelation(table: seq<(string, seq<int>)>, selectedType: string, i: nat): Option<Category>
    requires Lookup(table, selectedType).Some? && i < |table|
  {
    Relation(SetOf(Lookup(table, selectedType).value), SetOf(table[i].1))
  }

  /** Bucket `cat` after the first `n` entries of `table`: the entries, in
      table order, other than the selected type whose relation is `cat`, each
      paired with its offsets spelled on `root`. */
  function RelatedUpTo(table: seq<(string, seq<int>)>, selectedType: string, root: string,
                       cat: Category, n: nat): seq<(string, Spelling)>
    requires Lookup(table, selectedType).Some? && n <= |table|
  {
    if n == 0 then []
    else
      var prev := RelatedUpTo(table, selectedType, root, cat, n - 1);
      var chord := table[n - 1].0;
      if chord != selectedType && EntryRelation(table, selectedType, n - 1) == Some(cat) then
        prev + [(chord, SpellOnRoot(root, table[n - 1].1))]
      else prev
  }

  /** The finished bucket. */
  function Related(table: seq<(string, seq<int>)>, selectedType: string, root: string,
                   cat: Category): seq<(string, Spelling)>
    requires Lookup(table, selectedType).Some?
  {
    RelatedUpTo(table, selectedType, root, cat, |table|)
  }

  /** An entry is in a bucket exactly when it comes from an earlier table row
      other than the selected type, with that bucket's relation and the row's
      spelling. */
  lemma {:induction false} RelatedUpToMembers(table: seq<(string, seq<int>)>, selectedType: string,
                                              root: string, cat: Category, n: nat,
                                              e: (string, Spelling))
    requires Lookup(table, selectedType).Some? && n <= |table|
    ensures e in RelatedUpTo(table, selectedType, root, cat, n) <==>
            exists i :: 0 <= i < n && table[i].0 != selectedType &&
                        EntryRelation(table, selectedType, i) == Some(cat) &&
                        e == (table[i].0, SpellOnRoot(root, table[i].1))
  {
    if n > 0 {
      RelatedUpToMembers(table, selectedType, root, cat, n - 1, e);
      var prev := RelatedUpTo(table, selectedType, root, cat, n - 1);
      var chord := table[n - 1].0;
      if chord != selectedType && EntryRelation(table, selectedType, n - 1) == Some(cat) {
        assert RelatedUpTo(table, selectedType, root, cat, n) ==
               prev + [(chord, SpellOnRoot(root, table[n - 1].1))];
      } else {
        assert RelatedUpTo(table, selectedType, root, cat, n) == prev;
      }
    }
  }

  /** The selected chord type is never listed in any bucket. */
  lemma SelectedNeverListed(table: seq<(string, seq<int>)>, selectedType: string, root: string,
                            cat: Category, e: (string, Spelling))
    requires Lookup(table, selectedType).Some?
    requires e in Related(table, selectedType, root, cat)
    ensures e.0 != selectedType
  {
    RelatedUpToMembers(table, selectedType, root, cat, |table|, e);
  }

  /** Two offset lists that both contain the root offset always have a relation. */
  lemma RootedRelation(a: seq<int>, b: seq<int>)
    requires 0 in a && 0 in b
    ensures Relation(SetOf(a), SetOf(b)).Some?
  {
    assert 0 in SetOf(a) * SetOf(b);
  }

  lemma SelectedHasRoot(table: seq<(string, seq<int>)>, selectedType: string)
    requires Lookup(table, selectedType).Some?
    requires forall j :: 0 <= j < |table| ==> 0 in table[j].1
    ensures 0 in Lookup(table, selectedType).value
  {
  }

  /** In a table with distinct keys whose chords all contain the root offset,
      every type other than the selected one lands in exactly one bucket: the
      one its relation names. */
  lemma ExactlyOneBucket(table: seq<(string, seq<int>)>, selectedType: string, root: string,
                         i: nat, cat: Category)
    requires Lookup(table, selectedType).Some?
    requires NoDuplicates(Keys(table)) && forall j :: 0 <= j < |table| ==> 0 in table[j].1
    requires i < |table| && table[i].0 != selectedType
    ensures EntryRelation(table, selectedType, i).Some?
    ensures (table[i].0, SpellOnRoot(root, table[i].1)) in Related(table, selectedType, root, cat)
            <==> EntryRelation(table, selectedType, i) == Some(cat)
  {
    SelectedHasRoot(table, selectedType);
    RootedRelation(Lookup(table, selectedType).value, table[i].1);
    var e := (table[i].0, SpellOnRoot(root, table[i].1));
    RelatedUpToMembers(table, selectedType, root, cat, |table|, e);
    if e in Related(table, selectedType, root, cat) {
      var j :| 0 <= j < |table| && table[j].0 != selectedType &&
               EntryRelation(table, selectedType, j) == Some(cat) &&
               e == (table[j].0, SpellOnRoot(root, table[j].1));
      KeyPositionUnique(table, i, j);
    }
  }

  /** The categorized related chords on `root`, built by one pass over the
      table passed in. */
  method FindRelatedChordsCategorized(selectedType: string, chordIntervals: seq<(string, seq<int>)>,
                                      root: string)
      returns (superset: seq<(string, Spelling)>, subset: seq<(string, Spelling)>,
               shares: seq<(string, Spelling)>)
    requires Lookup(chordIntervals, selectedType).Some?
    ensures superset == Related(chordIntervals, selectedType, root, Superset)
    ensures subset == Related(chordIntervals, selectedType, root, Subset)
    ensures shares == Related(chordIntervals, selectedType, root, Shares)
  {
    var selectedIntervals := SetOf(Lookup(chordIntervals, selectedType).value);
    superset, subset, shares := [], [], [];
    for n := 0 to |chordIntervals|
      invariant superset == RelatedUpTo(chordIntervals, selectedType, root, Superset, n)
      invariant subset == RelatedUpTo(chordIntervals, selectedType, root, Subset, n)
      invariant shares == RelatedUpTo(chordIntervals, selectedType, root, Shares, n)
    {
      var chord := chordIntervals[n].0;
      var intervals := chordIntervals[n].1;
      if selectedType != chord {
        var intervalSet := SetOf(intervals);
        var relation: Option<Category> := None;
        if selectedIntervals <= intervalSet {
          relation := Some(Superset);
        } else if intervalSet <= selectedIntervals {
          relation := Some(Subset);
        } else if selectedIntervals * intervalSet != {} {
          relation := Some(Shares);
        }
        assert relation == EntryRelation(chordIntervals, selectedType, n);
        if relation.Some? {
          var notes, degrees := SpellChordOnRoot(root, intervals);
          match relation.value
          case Superset => superset := superset + [(chord, (notes, degrees))];
          case Subset => subset := subset + [(chord, (notes, degrees))];
          case Shares => shares := shares + [(chord, (notes, degrees))];
        }
      }
    }
  }

  /** With the module's own table, which is the one the application passes,
      every other chord type is listed exactly once, with what
      `calculate_chord_notes` returns for it. */
  lemma CatalogueBuckets(selectedType: string, root: string, i: nat, cat: Category)
    requires Lookup(ChordIntervals, selectedType).Some?
    requires i < |ChordIntervals| && ChordIntervals[i].0 != selectedType
    ensures ChordIntervals[i].0 in ChordTypes()
    ensures EntryRelation(ChordIntervals, selectedType, i).Some?
    ensures (ChordIntervals[i].0, ChordSpelling(root, ChordIntervals[i].0)) in Related(ChordIntervals, selectedType, root, cat)
            <==> EntryRelation(ChordIntervals, selectedType, i) == Some(cat)
  {
    CatalogueRooted();
    ChordTypesDistinct();
    CatalogueSpelling(root, i);
    ExactlyOneBucket(ChordIntervals, selectedType, root, i, cat);
  }

  lemma CatalogueRooted()
    ensures forall j :: 0 <= j < |ChordIntervals| ==> 0 in ChordIntervals[j].1
  {
    ChordIntervalsWellFormed();
    forall j | 0 <= j < |ChordIntervals| ensures 0 in ChordIntervals[j].1 {
      assert ChordIntervals[j].1[0] == 0;
    }
  }

  lemma MajorSetRelations()
    ensures Relation(SetOf([0, 4, 7]), SetOf([0, 4, 7, 11])) == Some(Superset)
    ensures Relation(SetOf([0, 4, 7]), SetOf([0, 7])) == Some(Subset)
    ensures Relation(SetOf([0, 4, 7]), SetOf([0, 3, 7])) == Some(Shares)
  {
    assert 4 !in SetOf([0, 7]);
    assert 4 !in SetOf([0, 3, 7]) && 3 !in SetOf([0, 4, 7]);
    assert 0 in SetOf([0, 4, 7]) * SetOf([0, 3, 7]);
  }

  lemma MajorEntries()
    ensures Lookup(ChordIntervals, "major") == Some([0, 4, 7])
    ensures ChordIntervals[4] == ("major_7th", [0, 4, 7, 11])
    ensures ChordIntervals[2] == ("power", [0, 7])
    ensures ChordIntervals[1] == ("minor", [0, 3, 7])
  {
  }

  /** For a major chord, the major seventh is a superset, the power chord a
      subset and the minor chord shares offsets. */
  lemma MajorRelations()
    ensures Lookup(ChordIntervals, "major").Some?
    ensures ChordIntervals[4].0 == "major_7th" && EntryRelation(ChordIntervals, "major", 4) == Some(Superset)
    ensures ChordIntervals[2].0 == "power" && EntryRelation(ChordIntervals, "major", 2) == Some(Subset)
    ensures ChordIntervals[1].0 == "minor" && EntryRelation(ChordIntervals, "major", 1) == Some(Shares)
  {
    MajorEntries();
    MajorSetRelations();
  }

  // ---------------------------------------------------------------------
  // is_note_in_chord

  /** A note belongs to a chord when it is one of the chord's spelled notes. */
  predicate IsNoteInChord(note: string, chordNotes: seq<string>)
  {
    note in chordNotes
  }

  // ---------------------------------------------------------------------
  // format_chord_notes_for_display

  /** A related note as shown: unchanged when it belongs to the selected chord,
      otherwise wrapped as " ..X.. ". */
  function DecorateNote(selectedNotes: seq<string>, note: string): string
  {
    if note !in selectedNotes then " .." + note + ".. " else note
  }

  /** The decorated notes, in order. */
  function DecorateNotes(selectedNotes: seq<string>, relatedNotes: seq<string>): (r: seq<string>)
    ensures |r| == |relatedNotes|
    ensures forall i :: 0 <= i < |r| ==> r[i] == DecorateNote(selectedNotes, relatedNotes[i])
  {
    seq(|relatedNotes|, i requires 0 <= i < |relatedNotes| => DecorateNote(selectedNotes, relatedNotes[i]))
  }

  /** Exactly the notes absent from the selected chord are wrapped: a shown
      entry equals its note if and only if the note is selected, and a wrapped
      entry is the note between " .." and ".. ". */
  lemma DecoratesExactlyAbsent(selectedNotes: seq<string>, relatedNotes: seq<string>, i: nat)
    requires i < |relatedNotes|
    ensures var d := DecorateNotes(selectedNotes, relatedNotes)[i];
            (d == relatedNotes[i] <==> relatedNotes[i] in selectedNotes) &&
            (relatedNotes[i] !in selectedNotes ==>
               d == " .." + relatedNotes[i] + ".. " &&
               |d| == |relatedNotes[i]| + 6 && d[3..|d| - 3] == relatedNotes[i])
  {
    var d := DecorateNotes(selectedNotes, relatedNotes)[i];
    if relatedNotes[i] !in selectedNotes {
      assert |d| == |relatedNotes[i]| + 6;
    }
  }

  /** The display text: the decorated notes joined by two spaces. */
  method FormatChordNotesForDisplay(selectedNotes: seq<string>, relatedNotes: seq<string>)
      returns (text: string)
    ensures text == Join(DecorateNotes(selectedNotes, relatedNotes), "  ")
  {
    var formatted: seq<string> := [];
    for i := 0 to |relatedNotes|
      invariant formatted == DecorateNotes(selectedNotes, relatedNotes[..i])
    {
      var note := relatedNotes[i];
      var shown;
      if note !in selectedNotes {
        shown := " .." + note + ".. ";
      } else {
        shown := note;
      }
      assert relatedNotes[..i + 1] == relatedNotes[..i] + [note];
      formatted := formatted + [shown];
    }
    assert relatedNotes[..|relatedNotes|] == relatedNotes;
    text := Join(formatted, "  ");
  }

  /** When every related note is selected the display is the plain join. */
  lemma AllSelectedShowsPlain(selectedNotes: seq<string>, relatedNotes: seq<string>)
    requires forall i :: 0 <= i < |relatedNotes| ==> relatedNotes[i] in selectedNotes
    ensures Join(DecorateNotes(selectedNotes, relatedNotes), "  ") == Join(relatedNotes, "  ")
  {
    assert DecorateNotes(selectedNotes, relatedNotes) == relatedNotes;
  }

  // ---------------------------------------------------------------------
  // Roman numerals

  /** A scale degree: its numerals (upper and lower case) and its offset. */
  datatype ScaleDegree = ScaleDegree(numerals: seq<string>, interval: int)

  const RomanNumeralIntervals: seq<(string, ScaleDegree)> := [
    ("Tonic", ScaleDegree(["I", "i"], 0)),
    ("Supertonic", ScaleDegree(["II", "ii"], 2)),
    ("Mediant", ScaleDegree(["III", "iii"], 4)),
    ("Subdominant", ScaleDegree(["IV", "iv"], 5)),
    ("Dominant", ScaleDegree(["V", "v"], 7)),
    ("Submediant", ScaleDegree(["VI", "vi"], 9)),
    ("Leading Tone", ScaleDegree(["VII", "vii"], 11))
  ]

  /** The offset of the first degree, from row `i` of `table` on, that
      lists `numeral`. */
  function NumeralIntervalFrom(table: seq<(string, ScaleDegree)>, numeral: string, i: nat): Option<int>
    requires i <= |table|
    decreases |table| - i
  {
    if i == |table| then None
    else if numeral in table[i].1.numerals then Some(table[i].1.interval)
    else NumeralIntervalFrom(table, numeral, i + 1)
  }

  /** The search finds nothing exactly when no later degree lists the
      numeral, and otherwise the offset of the first degree that does. */
  lemma {:induction false} NumeralIntervalFromMeaning(table: seq<(string, ScaleDegree)>, numeral: string, i: nat)
    requires i <= |table|
    ensures NumeralIntervalFrom(table, numeral, i).None? <==>
            forall j :: i <= j < |table| ==> numeral !in table[j].1.numerals
    ensures NumeralIntervalFrom(table, numeral, i).Some? ==>
            exists j :: i <= j < |table| && numeral in table[j].1.numerals &&
                        NumeralIntervalFrom(table, numeral, i).value == table[j].1.interval &&
                        forall k :: i <= k < j ==> numeral !in table[k].1.numerals
    decreases |table| - i
  {
    if i < |table| && numeral !in table[i].1.numerals {
      NumeralIntervalFromMeaning(table, numeral, i + 1);
    }
  }

  /** The first degree listing a numeral is the one the search returns. */
  lemma {:induction false} FirstListing(table: seq<(string, ScaleDegree)>, numeral: string, i: nat, j: nat)
    requires i <= j < |table| && numeral in table[j].1.numerals
    requires forall k :: i <= k < j ==> numeral !in table[k].1.numerals
    ensures NumeralIntervalFrom(table, numeral, i) == Some(table[j].1.interval)
    decreases j - i
  {
    if i < j {
      FirstListing(table, numeral, i + 1, j);
    }
  }

  /** The offset of the degree of `roman_numeral_intervals` listing `numeral`. */
  function NumeralInterval(numeral: string): Option<int>
  {
    NumeralIntervalFrom(RomanNumeralIntervals, numeral, 0)
  }

  /** The search loop of `progression_to_root_notes` over a numeral table. */
  method FindNumeralInterval(table: seq<(string, ScaleDegree)>, numeral: string) returns (interval: Option<int>)
    ensures interval == NumeralIntervalFrom(table, numeral, 0)
  {
    interval := None;
    var i := 0;
    while i < |table|
      invariant 0 <= i <= |table|
      invariant NumeralIntervalFrom(table, numeral, 0) == NumeralIntervalFrom(table, numeral, i)
    {
      if numeral in table[i].1.numerals {
        interval := Some(table[i].1.interval);
        break;
      }
      i := i + 1;
    }
  }

  /** No numeral is listed under two degrees of the table. */
  lemma NumeralsDistinct()
    ensures forall j, k, n :: 0 <= j < k < |RomanNumeralIntervals| && 0 <= n < |RomanNumeralIntervals[k].1.numerals| ==>
              RomanNumeralIntervals[k].1.numerals[n] !in RomanNumeralIntervals[j].1.numerals
  {
  }

  /** Each numeral of the table resolves to its own degree's offset. */
  lemma NumeralsResolve(d: nat, n: nat)
    requires d < |RomanNumeralIntervals| && n < |RomanNumeralIntervals[d].1.numerals|
    ensures NumeralInterval(RomanNumeralIntervals[d].1.numerals[n]) == Some(RomanNumeralIntervals[d].1.interval)
  {
    NumeralsDistinct();
    FirstListing(RomanNumeralIntervals, RomanNumeralIntervals[d].1.numerals[n], 0, d);
  }

  // ---------------------------------------------------------------------
  // get_chord_type_from_part

  /** Python `c.islower()` for one ASCII character. */
  predicate IsLowerChar(c: char)
  {
    'a' <= c <= 'z'
  }

  /** Python `s.isupper()` on ASCII text: some letter, and no lower-case one. */
  predicate IsUpperText(s: string)
  {
    (exists i :: 0 <= i < |s| && 'A' <= s[i] <= 'Z') &&
    forall i :: 0 <= i < |s| ==> !IsLowerChar(s[i])
  }

  /** The chord quality of a progression part, by substring tests in a fixed
      order; the source reads `part[0]`, so the part must not be empty. */
  function ChordTypeFromPart(part: string): string
    requires |part| > 0
  {
    if Contains(part, "m6") then "minor_6th"
    else if IsLowerChar(part[0]) then "minor"
    else if Contains(part, "m7(b5)") then "half_diminished_7th"
    else if Contains(part, "add9") then "add9"
    else if Contains(part, "dim7") then "diminished_7th"
    else if Contains(part, "m7") then "minor_7th"
    else if Contains(part, "M7") || Contains(part, "maj7") then "major_7th"
    else if Contains(part, "7") then "dominant_7th"
    else if Contains(part, "dim") then "diminished"
    else if Contains(part, "aug") then "augmented"
    else if Contains(part, "sus2") then "suspended_2nd"
    else if Contains(part, "sus4") then "suspended_4th"
    else if Contains(part, "P") then "power"
    else if Contains(part, "M") || IsUpperText(part) then "major"
    else "major"
  }

  /** The qualities the chain can return. */
  lemma ChordTypeFromPartRange(part: string)
    requires |part| > 0
    ensures ChordTypeFromPart(part) in {"minor_6th", "minor", "half_diminished_7th", "add9",
                                        "diminished_7th", "minor_7th", "major_7th", "dominant_7th",
                                        "diminished", "augmented", "suspended_2nd", "suspended_4th",
                                        "power", "major"}
  {
  }

  /** Every quality is a catalogued chord type, so it can be spelled: each
      branch of the chain names a row of the catalogue. */
  lemma ChordTypeFromPartCatalogued(part: string)
    requires |part| > 0
    ensures ChordTypeFromPart(part) in ChordTypes()
  {
    if Contains(part, "m6") { MinorSixthCatalogued(); }
    else if IsLowerChar(part[0]) { MinorCatalogued(); }
    else if Contains(part, "m7(b5)") { HalfDiminishedSeventhCatalogued(); }
    else if Contains(part, "add9") { AddNineCatalogued(); }
    else if Contains(part, "dim7") { DiminishedSeventhCatalogued(); }
    else if Contains(part, "m7") { MinorSeventhCatalogued(); }
    else if Contains(part, "M7") || Contains(part, "maj7") { MajorSeventhCatalogued(); }
    else if Contains(part, "7") { DominantSeventhCatalogued(); }
    else if Contains(part, "dim") { DiminishedCatalogued(); }
    else if Contains(part, "aug") { AugmentedCatalogued(); }
    else if Contains(part, "sus2") { SuspendedSecondCatalogued(); }
    else if Contains(part, "sus4") { SuspendedFourthCatalogued(); }
    else if Contains(part, "P") { PowerCatalogued(); }
    else { MajorCatalogued(); }
  }

  // Each quality the chain returns is the name of one catalogue row.

  lemma MinorSixthCatalogued()
    ensures "minor_6th" in ChordTypes()
  {
    assert ChordTypes()[15] == ChordIntervals[15].0;
  }

  lemma MinorCatalogued()
    ensures "minor" in ChordTypes()
  {
    assert ChordTypes()[1] == ChordIntervals[1].0;
  }

  lemma HalfDiminishedSeventhCatalogued()
    ensures "half_diminished_7th" in ChordTypes()
  {
    assert ChordTypes()[11] == ChordIntervals[11].0;
  }

  lemma AddNineCatalogued()
    ensures "add9" in ChordTypes()
  {
    assert ChordTypes()[12] == ChordIntervals[12].0;
  }

  lemma DiminishedSeventhCatalogued()
    ensures "diminished_7th" in ChordTypes()
  {
    assert ChordTypes()[10] == ChordIntervals[10].0;
  }

  lemma MinorSeventhCatalogued()
    ensures "minor_7th" in ChordTypes()
  {
    assert ChordTypes()[5] == ChordIntervals[5].0;
  }

  lemma MajorSeventhCatalogued()
    ensures "major_7th" in ChordTypes()
  {
    assert ChordTypes()[4] == ChordIntervals[4].0;
  }

  lemma DominantSeventhCatalogued()
    ensures "dominant_7th" in ChordTypes()
  {
    assert ChordTypes()[3] == ChordIntervals[3].0;
  }

  lemma DiminishedCatalogued()
    ensures "diminished" in ChordTypes()
  {
    assert ChordTypes()[9] == ChordIntervals[9].0;
  }

  lemma AugmentedCatalogued()
    ensures "augmented" in ChordTypes()
  {
    assert ChordTypes()[8] == ChordIntervals[8].0;
  }

  lemma SuspendedSecondCatalogued()
    ensures "suspended_2nd" in ChordTypes()
  {
    assert ChordTypes()[7] == ChordIntervals[7].0;
  }

  lemma SuspendedFourthCatalogued()
    ensures "suspended_4th" in ChordTypes()
  {
    assert ChordTypes()[6] == ChordIntervals[6].0;
  }

  lemma PowerCatalogued()
    ensures "power" in ChordTypes()
  {
    assert ChordTypes()[2] == ChordIntervals[2].0;
  }

  lemma MajorCatalogued()
    ensures "major" in ChordTypes()
  {
    assert ChordTypes()[0] == ChordIntervals[0].0;
  }

  /** "m6" anywhere wins over everything; otherwise a lower-case first letter
      is minor whatever follows it, and nothing else is. */
  lemma QualityPriority(part: string)
    requires |part| > 0
    ensures Contains(part, "m6") ==> ChordTypeFromPart(part) == "minor_6th"
    ensures !Contains(part, "m6") && IsLowerChar(part[0]) ==> ChordTypeFromPart(part) == "minor"
    ensures !Contains(part, "m6") && !IsLowerChar(part[0]) ==> ChordTypeFromPart(part) != "minor"
  {
  }

  lemma ContainsHere(part: string, pat: string, i: nat)
    requires OccursAt(part, pat, i)
    ensures Contains(part, pat)
  {
    ContainsIff(part, pat);
  }

  /** Letters of a bare Roman numeral. */
  predicate IsNumeralLetter(c: char)
  {
    c == 'I' || c == 'V' || c == 'i' || c == 'v'
  }

  predicate IsBareNumeral(part: string)
  {
    forall i :: 0 <= i < |part| ==> IsNumeralLetter(part[i])
  }

  /** The quality symbols cannot occur in a bare numeral. */
  lemma BareNumeralHasNoSymbols(part: string)
    requires IsBareNumeral(part)
    ensures 'm' !in part && 'a' !in part && 'd' !in part && '7' !in part && '6' !in part
    ensures 's' !in part && 'P' !in part && 'M' !in part
  {
  }

  /** A bare upper-case numeral is major, a bare lower-case one minor. */
  lemma BareNumeralQuality(part: string)
    requires |part| > 0 && IsBareNumeral(part)
    ensures IsLowerChar(part[0]) ==> ChordTypeFromPart(part) == "minor"
    ensures !IsLowerChar(part[0]) ==> ChordTypeFromPart(part) == "major"
  {
    BareNumeralHasNoSymbols(part);
    AbsentSymbol(part, "m6", 0);
    AbsentSymbol(part, "m7(b5)", 0);
    AbsentSymbol(part, "add9", 0);
    AbsentSymbol(part, "dim7", 0);
    AbsentSymbol(part, "m7", 0);
    AbsentSymbol(part, "M7", 0);
    AbsentSymbol(part, "maj7", 0);
    AbsentSymbol(part, "7", 0);
    AbsentSymbol(part, "dim", 0);
    AbsentSymbol(part, "aug", 0);
    AbsentSymbol(part, "sus2", 0);
    AbsentSymbol(part, "sus4", 0);
    AbsentSymbol(part, "P", 0);
  }

  /** "ii7" is minor: the lower-case test comes before the seventh. */
  lemma LowerNumeralIsMinor(part: string)
    requires part == "ii7"
    ensures ChordTypeFromPart(part) == "minor"
  {
    AbsentSymbol(part, "m6", 0);
  }

  /** A half-diminished seventh is recognised before the minor seventh and
      the seventh tests it also passes. */
  lemma HalfDiminishedBeforeSeventh(part: string)
    requires part == "Vm7(b5)"
    ensures ChordTypeFromPart(part) == "half_diminished_7th"
  {
    AbsentSymbol(part, "m6", 1);
    assert OccursAt(part, "m7(b5)", 1);
    ContainsHere(part, "m7(b5)", 1);
  }

  // ---------------------------------------------------------------------
  // progression_to_root_notes

  /** A part with the quality symbols "m6", "m", "M" and "7" removed, in that
      order. */
  function CleanPart(part: string): string
  {
    ReplaceAll(ReplaceAll(ReplaceAll(ReplaceAll(part, "m6", ""), "m", ""), "M", ""), "7", "")
  }

  /** The root of one part: the key moved up by the numeral's offset, or the
      key itself when the cleaned part is not a numeral. */
  function PartRoot(key: string, part: string): string
    requires NumeralInterval(CleanPart(part)).Some? ==> key in ChromaticScale
  {
    match NumeralInterval(CleanPart(part))
    case Some(interval) => Transpose(key, interval)
    case None => key
  }

  /** The source looks the key up only for a part that resolves to a numeral. */
  predicate RootsDefined(key: string, progression: string)
  {
    key in ChromaticScale ||
    forall k :: 0 <= k < |Split(progression, '-')| ==> NumeralInterval(CleanPart(Split(progression, '-')[k])).None?
  }

  /** The root of one part, computed as the loop body does. */
  method PartRootNote(key: string, part: string) returns (root: string)
    requires NumeralInterval(CleanPart(part)).Some? ==> key in ChromaticScale
    ensures root == PartRoot(key, part)
  {
    var cleaned := ReplaceAll(ReplaceAll(ReplaceAll(ReplaceAll(part, "m6", ""), "m", ""), "M", ""), "7", "");
    assert cleaned == CleanPart(part);
    var interval := FindNumeralInterval(RomanNumeralIntervals, cleaned);
    if interval.Some? {
      root := Transpose(key, interval.value);
    } else {
      root := key;
    }
  }

  /** One root per `-`-separated part, in order. */
  method ProgressionToRootNotes(key: string, progression: string) returns (roots: seq<string>)
    requires RootsDefined(key, progression)
    ensures |roots| == |Split(progression, '-')|
    ensures forall k :: 0 <= k < |roots| ==> roots[k] == PartRoot(key, Split(progression, '-')[k])
  {
    var parts := Split(progression, '-');
    roots := [];
    for k := 0 to |parts|
      invariant |roots| == k
      invariant forall j :: 0 <= j < k ==> roots[j] == PartRoot(key, parts[j])
    {
      var root := PartRootNote(key, parts[k]);
      roots := roots + [root];
    }
  }

  /** A bare numeral is left alone by the cleaning. */
  lemma CleanBareNumeral(part: string)
    requires IsBareNumeral(part)
    ensures CleanPart(part) == part
  {
    BareNumeralHasNoSymbols(part);
    AbsentSymbol(part, "m6", 0);
    ReplaceAbsent(part, "m6", "");
    AbsentSymbol(part, "m", 0);
    ReplaceAbsent(part, "m", "");
    AbsentSymbol(part, "M", 0);
    ReplaceAbsent(part, "M", "");
    AbsentSymbol(part, "7", 0);
    ReplaceAbsent(part, "7", "");
  }

  /** A part that is a listed numeral, bare, lands on its degree. */
  lemma BareNumeralRoot(key: string, d: nat, n: nat)
    requires key in ChromaticScale
    requires d < |RomanNumeralIntervals| && n < |RomanNumeralIntervals[d].1.numerals|
    requires IsBareNumeral(RomanNumeralIntervals[d].1.numerals[n])
    ensures PartRoot(key, RomanNumeralIntervals[d].1.numerals[n]) == Transpose(key, RomanNumeralIntervals[d].1.interval)
  {
    CleanBareNumeral(RomanNumeralIntervals[d].1.numerals[n]);
    NumeralsResolve(d, n);
  }

  /** Every numeral of the table is bare and at most three letters long. */
  lemma NumeralsBareAndShort(d: nat, n: nat)
    requires d < |RomanNumeralIntervals| && n < |RomanNumeralIntervals[d].1.numerals|
    ensures IsBareNumeral(RomanNumeralIntervals[d].1.numerals[n])
    ensures |RomanNumeralIntervals[d].1.numerals[n]| <= 3
  {
  }

  /** "ii-V-I" has the three parts "ii", "V" and "I". */
  lemma SplitTwoFiveOne(progression: string)
    requires progression == "ii-V-I"
    ensures Split(progression, '-') == ["ii", "V", "I"]
  {
    assert SplitFrom(progression, '-', 6) == [""];
    assert [progression[5]] + "" == "I";
    assert SplitFrom(progression, '-', 5) == ["I"];
    assert SplitFrom(progression, '-', 4) == ["", "I"];
    assert [progression[3]] + "" == "V";
    assert SplitFrom(progression, '-', 3) == ["V", "I"];
    assert SplitFrom(progression, '-', 2) == ["", "V", "I"];
    assert [progression[1]] + "" == "i";
    assert SplitFrom(progression, '-', 1) == ["i", "V", "I"];
    assert [progression[0]] + "i" == "ii";
  }

  /** A worked example, in every key: the parts of "ii-V-I"
      have their roots two and seven semitones up and on the key itself
      (D, G, C in C). */
  lemma TwoFiveOneRoots(key: string)
    requires key in ChromaticScale
    ensures PartRoot(key, "ii") == Transpose(key, 2) && PartRoot(key, "V") == Transpose(key, 7) &&
            PartRoot(key, "I") == key
  {
    SupertonicRoot(key);
    DominantRoot(key);
    TonicRoot(key);
  }

  lemma SupertonicRoot(key: string)
    requires key in ChromaticScale
    ensures PartRoot(key, "ii") == Transpose(key, 2)
  {
    ListedNumeralRoot(key, "ii", 1, 1, 2);
  }

  lemma DominantRoot(key: string)
    requires key in ChromaticScale
    ensures PartRoot(key, "V") == Transpose(key, 7)
  {
    ListedNumeralRoot(key, "V", 4, 0, 7);
  }

  lemma TonicRoot(key: string)
    requires key in ChromaticScale
    ensures PartRoot(key, "I") == key
  {
    ListedNumeralRoot(key, "I", 0, 0, 0);
    TransposeOctaves(key, 0);
  }

  /** Its qualities are minor, major, major. */
  lemma TwoFiveOneQualities()
    ensures ChordTypeFromPart("ii") == "minor" && ChordTypeFromPart("V") == "major" &&
            ChordTypeFromPart("I") == "major"
  {
    BareNumeralQuality("ii");
    BareNumeralQuality("V");
    BareNumeralQuality("I");
  }

  lemma ListedNumeralRoot(key: string, numeral: string, d: nat, n: nat, k: int)
    requires key in ChromaticScale
    requires d < |RomanNumeralIntervals| && n < |RomanNumeralIntervals[d].1.numerals|
    requires numeral == RomanNumeralIntervals[d].1.numerals[n] && RomanNumeralIntervals[d].1.interval == k
    ensures PartRoot(key, numeral) == Transpose(key, k)
  {
    NumeralsBareAndShort(d, n);
    BareNumeralRoot(key, d, n);
  }

  /** As written, the cleaning keeps the "aj" of "maj7", so "IVmaj7" is not
      recognised as a numeral and its root falls back to the key. */
  lemma MajorSeventhFallsBack(key: string, part: string)
    requires part == "IVmaj7"
    ensures CleanPart(part) == "IVaj"
    ensures NumeralInterval("IVaj").None?
    ensures PartRoot(key, part) == key
  {
    AbsentSymbol(part, "m6", 1);
    ReplaceAbsent(part, "m6", "");
    RemoveOnlyOccurrence(part, 'm', 2);
    assert ReplaceAll(part, "m", "") == "IVaj7";
    AbsentSymbol("IVaj7", "M", 0);
    ReplaceAbsent("IVaj7", "M", "");
    RemoveOnlyOccurrence("IVaj7", '7', 4);
    assert ReplaceAll("IVaj7", "7", "") == "IVaj";
    forall d: nat, n: nat | d < |RomanNumeralIntervals| && n < |RomanNumeralIntervals[d].1.numerals|
      ensures RomanNumeralIntervals[d].1.numerals[n] != "IVaj"
    {
      NumeralsBareAndShort(d, n);
    }
    NumeralIntervalFromMeaning(RomanNumeralIntervals, "IVaj", 0);
  }

  /** The leading Roman-numeral letters of a part. */
  function NumeralPrefix(part: string): (r: string)
    ensures |r| <= |part| && r == part[..|r|] && IsBareNumeral(r)
    ensures |r| < |part| ==> !IsNumeralLetter(part[|r|])
  {
    if |part| == 0 || !IsNumeralLetter(part[0]) then ""
    else [part[0]] + NumeralPrefix(part[1..])
  }

  /** The numeral of a part followed by anything that does not start with a
      numeral letter is the numeral itself. */
  lemma {:induction false} NumeralPrefixOf(numeral: string, suffix: string)
    requires IsBareNumeral(numeral)
    requires |suffix| > 0 ==> !IsNumeralLetter(suffix[0])
    ensures NumeralPrefix(numeral + suffix) == numeral
  {
    if |numeral| > 0 {
      assert (numeral + suffix)[1..] == numeral[1..] + suffix;
      NumeralPrefixOf(numeral[1..], suffix);
    } else {
      assert numeral + suffix == suffix;
    }
  }

  /** The root the cleaning evidently aims at: read the numeral off the front
      of the part, whatever quality symbols follow it. */
  function IntendedPartRoot(key: string, part: string): string
    requires NumeralInterval(NumeralPrefix(part)).Some? ==> key in ChromaticScale
  {
    match NumeralInterval(NumeralPrefix(part))
    case Some(interval) => Transpose(key, interval)
    case None => key
  }

  /** Any quality suffix leaves the degree of a listed numeral intact. */
  lemma IntendedRootKeepsDegree(key: string, d: nat, n: nat, suffix: string)
    requires key in ChromaticScale
    requires d < |RomanNumeralIntervals| && n < |RomanNumeralIntervals[d].1.numerals|
    requires |suffix| > 0 ==> !IsNumeralLetter(suffix[0])
    ensures IntendedPartRoot(key, RomanNumeralIntervals[d].1.numerals[n] + suffix) ==
            Transpose(key, RomanNumeralIntervals[d].1.interval)
  {
    NumeralsBareAndShort(d, n);
    NumeralPrefixOf(RomanNumeralIntervals[d].1.numerals[n], suffix);
    NumeralsResolve(d, n);
  }

  /** On bare numerals the intended reading agrees with the source's. */
  lemma IntendedAgreesOnBareNumerals(key: string, part: string)
    requires key in ChromaticScale && IsBareNumeral(part)
    ensures IntendedPartRoot(key, part) == PartRoot(key, part)
  {
    CleanBareNumeral(part);
    NumeralPrefixOf(part, "");
    assert part + "" == part;
  }

  /** With the intended reading, "IVmaj7" has the subdominant root, five
      semitones up (F in C), which is never the key itself. */
  lemma MajorSeventhIntended(key: string, part: string)
    requires key in ChromaticScale && part == "IVmaj7"
    ensures IntendedPartRoot(key, part) == Transpose(key, 5)
    ensures IntendedPartRoot(key, part) != key
  {
    SubdominantNumeral();
    assert part == "IV" + "maj7";
    IntendedRootKeepsDegree(key, 3, 0, "maj7");
    TransposeMoves(key, 5);
  }

  /** The subdominant is listed first as "IV", five semitones up. */
  lemma SubdominantNumeral()
    ensures 0 < |RomanNumeralIntervals[3].1.numerals|
    ensures RomanNumeralIntervals[3].1.numerals[0] == "IV" && RomanNumeralIntervals[3].1.interval == 5
  {
  }
}
