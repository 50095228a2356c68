/** The pitch and interval tables of the engine and the two derivations built on
    them: the notes and degree labels of a chord, and of a scale (mode). */
module NoteSets {
  import opened Util

  /** The 12 pitch classes, sharps and flats combined, starting at C. */
  const ChromaticScale: seq<string> :=
    ["C", "C#/Db", "D", "D#/Eb", "E", "F", "F#/Gb", "G", "G#/Ab", "A", "A#/Bb", "B"]

  /** The circle ordering used by the diagram (each step is 5 semitones). */
  const CircleOfFifthsNotes: seq<string> :=
    ["C", "F", "A#/Bb", "D#/Eb", "G#/Ab", "C#/Db", "F#/Gb", "B", "E", "A", "D", "G"]

  /** Standard tuning, one row of frets 0..12 per string, low E first. */
  const GuitarStringsStandard: seq<(string, seq<string>)> := [
    ("E_low", ["E", "F", "F#/Gb", "G", "G#/Ab", "A", "A#/Bb", "B", "C", "C#/Db", "D", "D#/Eb", "E"]),
    ("A", ["A", "A#/Bb", "B", "C", "C#/Db", "D", "D#/Eb", "E", "F", "F#/Gb", "G", "G#/Ab", "A"]),
    ("D", ["D", "D#/Eb", "E", "F", "F#/Gb", "G", "G#/Ab", "A", "A#/Bb", "B", "C", "C#/Db", "D"]),
    ("G", ["G", "G#/Ab", "A", "A#/Bb", "B", "C", "C#/Db", "D", "D#/Eb", "E", "F", "F#/Gb", "G"]),
    ("B", ["B", "C", "C#/Db", "D", "D#/Eb", "E", "F", "F#/Gb", "G", "G#/Ab", "A", "A#/Bb", "B"]),
    ("E_high", ["E", "F", "F#/Gb", "G", "G#/Ab", "A", "A#/Bb", "B", "C", "C#/Db", "D", "D#/Eb", "E"])
  ]

  /** Mode name to semitone offsets, in the table's order. */
  const ModeIntervals: seq<(string, seq<int>)> := [
    ("Ionian", [0, 2, 4, 5, 7, 9, 11]),
    ("Dorian", [0, 2, 3, 5, 7, 9, 10]),
    ("Phrygian", [0, 1, 3, 5, 7, 8, 10]),
    ("Lydian", [0, 2, 4, 6, 7, 9, 11]),
    ("Mixolydian", [0, 2, 4, 5, 7, 9, 10]),
    ("Aeolian", [0, 2, 3, 5, 7, 8, 10]),
    ("Locrian", [0, 1, 3, 5, 6, 8, 10]),
    ("Harmonic Minor", [0, 2, 3, 5, 7, 8, 11]),
    ("Melodic Minor Ascending", [0, 2, 3, 5, 7, 9, 11]),
    ("Melodic Minor Descending", [0, 2, 4, 5, 7, 8, 10])
  ]

  /** Chord type name to semitone offsets, in the table's order. Offsets above
      11 (the ninths) are kept unreduced. */
  const ChordIntervals: seq<(string, seq<int>)> := [
    ("major", [0, 4, 7]),
    ("minor", [0, 3, 7]),
    ("power", [0, 7]),
    ("dominant_7th", [0, 4, 7, 10]),
    ("major_7th", [0, 4, 7, 11]),
    ("minor_7th", [0, 3, 7, 10]),
    ("suspended_4th", [0, 5, 7]),
    ("suspended_2nd", [0, 2, 7]),
    ("augmented", [0, 4, 8]),
    ("diminished", [0, 3, 6]),
    ("diminished_7th", [0, 3, 6, 9]),
    ("half_diminished_7th", [0, 3, 6, 10]),
    ("add9", [0, 4, 7, 14]),
    ("minor_add9", [0, 3, 7, 14]),
    ("6th", [0, 4, 7, 9]),
    ("minor_6th", [0, 3, 7, 9])
  ]

  /** The sparse offset-to-label table: 16 and 19 have no entry. */
  const DegreeNames: map<int, string> := map[
    0 := "R", 1 := "b2", 2 := "2", 3 := "b3", 4 := "3", 5 := "4", 6 := "b5",
    7 := "5", 8 := "#5", 9 := "6", 10 := "b7", 11 := "7", 12 := "R",
    13 := "b9", 14 := "9", 15 := "#9", 17 := "11", 18 := "#11", 20 := "b13", 21 := "13"
  ]

  /** The chord type names, in table order. */
  function ChordTypes(): (r: seq<string>)
    ensures |r| == 16 && forall i :: 0 <= i < 16 ==> r[i] == ChordIntervals[i].0
  {
    Keys(ChordIntervals)
  }

  /** The offsets of a chord type; an unknown name is a lookup failure in the
      source, so callers must pass a catalogued name. */
  function ChordIntervalsOf(chordType: string): (r: seq<int>)
    requires chordType in ChordTypes()
    ensures exists i :: 0 <= i < |ChordIntervals| && ChordIntervals[i] == (chordType, r)
  {
    Lookup(ChordIntervals, chordType).value
  }

  /** The degree label of an unreduced offset, `"?"` where the table has none. */
  function IntervalToDegree(interval: int): (r: string)
    ensures r == "?" <==> interval < 0 || interval == 16 || interval == 19 || interval > 21
    ensures interval in DegreeNames ==> r == DegreeNames[interval]
  {
    if interval in DegreeNames then DegreeNames[interval] else "?"
  }

  /** The notes and degree labels reached from chromatic position `rootIndex`
      by each offset, in the offsets' order. */
  function Spell(rootIndex: int, intervals: seq<int>): (r: (seq<string>, seq<string>))
    requires 0 <= rootIndex < 12
    ensures |r.0| == |intervals| && |r.1| == |intervals|
    ensures forall i :: 0 <= i < |intervals| ==>
              r.0[i] == ChromaticScale[(rootIndex + intervals[i]) % 12] &&
              r.1[i] == IntervalToDegree(intervals[i])
  {
    (seq(|intervals|, i requires 0 <= i < |intervals| => ChromaticScale[(rootIndex + intervals[i]) % 12]),
     seq(|intervals|, i requires 0 <= i < |intervals| => IntervalToDegree(intervals[i])))
  }

  /** Offsets spelled on a root given by name: empty lists for a root that is
      not exactly one of the 12 names. */
  function SpellOnRoot(root: string, intervals: seq<int>): (seq<string>, seq<string>)
  {
    if root in ChromaticScale then Spell(IndexOf(ChromaticScale, root), intervals)
    else ([], [])
  }

  /** What `calculate_chord_notes` returns. The root is searched first, so an
      unknown root gives empty lists whatever the chord type; only a known root
      goes on to index the chord table. */
  function ChordSpelling(root: string, chordType: string): (seq<string>, seq<string>)
    requires root in ChromaticScale ==> chordType in ChordTypes()
  {
    if root !in ChromaticScale then ([], [])
    else Spell(IndexOf(ChromaticScale, root), ChordIntervalsOf(chordType))
  }

  /** The root search of `calculate_chord_notes`: the position of the first
      chromatic name equal to `root`, or -1. */
  method FindRootIndex(root: string) returns (rootIndex: int)
    ensures root in ChromaticScale ==> rootIndex == IndexOf(ChromaticScale, root)
    ensures root !in ChromaticScale ==> rootIndex == -1
  {
    rootIndex := -1;
    var i := 0;
    while i < |ChromaticScale|
      invariant 0 <= i <= |ChromaticScale|
      invariant forall j :: 0 <= j < i ==> ChromaticScale[j] != root
    {
      if root == ChromaticScale[i] {
        rootIndex := i;
        break;
      }
      i := i + 1;
    }
  }

  /** The append loop shared by the chord and scale derivations. */
  method SpellIntervals(rootIndex: int, intervals: seq<int>)
      returns (notes: seq<string>, degrees: seq<string>)
    requires 0 <= rootIndex < 12
    ensures |notes| == |intervals| && |degrees| == |intervals|
    ensures forall j :: 0 <= j < |intervals| ==>
              notes[j] == ChromaticScale[(rootIndex + intervals[j]) % 12] &&
              degrees[j] == IntervalToDegree(intervals[j])
    ensures (notes, degrees) == Spell(rootIndex, intervals)
  {
    notes, degrees := [], [];
    for n := 0 to |intervals|
      invariant |notes| == n && |degrees| == n
      invariant forall j :: 0 <= j < n ==>
                  notes[j] == ChromaticScale[(rootIndex + intervals[j]) % 12] &&
                  degrees[j] == IntervalToDegree(intervals[j])
    {
      notes := notes + [ChromaticScale[(rootIndex + intervals[n]) % 12]];
      degrees := degrees + [IntervalToDegree(intervals[n])];
    }
    var spelled := Spell(rootIndex, intervals);
    assert notes == spelled.0 && degrees == spelled.1;
  }

  /** The notes and degree labels of a chord on `root`: empty for a root that
      is not exactly one of the 12 names. */
  method CalculateChordNotes(root: string, chordType: string)
      returns (notes: seq<string>, degrees: seq<string>)
    requires root in ChromaticScale ==> chordType in ChordTypes()
    ensures (notes, degrees) == ChordSpelling(root, chordType)
  {
    var rootIndex := FindRootIndex(root);
    if rootIndex == -1 {
      return [], [];
    }
    var intervals := ChordIntervalsOf(chordType);
    notes, degrees := SpellIntervals(rootIndex, intervals);
  }

  /** The root search and append loop of `calculate_chord_notes` applied to
      offsets already in hand. */
  method SpellChordOnRoot(root: string, intervals: seq<int>)
      returns (notes: seq<string>, degrees: seq<string>)
    ensures (notes, degrees) == SpellOnRoot(root, intervals)
  {
    var rootIndex := FindRootIndex(root);
    if rootIndex == -1 {
      return [], [];
    }
    notes, degrees := SpellIntervals(rootIndex, intervals);
  }

  /** `notes` holds, for each offset in order, the chromatic name that many
      semitones above position `rootIndex`. */
  predicate NotesFrom(notes: seq<string>, rootIndex: int, intervals: seq<int>)
    requires 0 <= rootIndex < 12
  {
    |notes| == |intervals| &&
    forall i :: 0 <= i < |intervals| ==>
      notes[i] == ChromaticScale[(rootIndex + intervals[i]) % 12] && notes[i] in ChromaticScale
  }

  /** `degrees` holds, for each offset in order, its degree label. */
  predicate DegreesFrom(degrees: seq<string>, intervals: seq<int>)
  {
    |degrees| == |intervals| &&
    forall i :: 0 <= i < |intervals| ==> degrees[i] == IntervalToDegree(intervals[i])
  }

  /** A chord on a root outside the 12 names has no notes and no degrees.
      On a known root there is one note and one label per offset of the chord
      type: note i is the chromatic name `iv[i]` semitones above the root and
      label i is the degree of the unreduced offset. */
  lemma ChordSpellingMeaning(root: string, chordType: string)
    requires root in ChromaticScale ==> chordType in ChordTypes()
    ensures root !in ChromaticScale ==> ChordSpelling(root, chordType) == ([], [])
    ensures root in ChromaticScale ==>
              NotesFrom(ChordSpelling(root, chordType).0, IndexOf(ChromaticScale, root),
                        ChordIntervalsOf(chordType)) &&
              DegreesFrom(ChordSpelling(root, chordType).1, ChordIntervalsOf(chordType))
  {
    if root in ChromaticScale {
      var rootIndex := IndexOf(ChromaticScale, root);
      var intervals := ChordIntervalsOf(chordType);
      assert ChordSpelling(root, chordType) == Spell(rootIndex, intervals);
      SpellMeaning(rootIndex, intervals);
    }
  }

  /** A spelling from a chromatic position, note by note and label by label. */
  lemma SpellMeaning(rootIndex: int, intervals: seq<int>)
    requires 0 <= rootIndex < 12
    ensures NotesFrom(Spell(rootIndex, intervals).0, rootIndex, intervals)
    ensures DegreesFrom(Spell(rootIndex, intervals).1, intervals)
  {
    var notes := Spell(rootIndex, intervals).0;
    forall i | 0 <= i < |intervals| ensures notes[i] in ChromaticScale {
      ElementIn(ChromaticScale, (rootIndex + intervals[i]) % 12);
    }
  }

  /** On a known root the first note of every chord is the root itself. */
  lemma ChordSpellingStartsOnRoot(root: string, chordType: string)
    requires root in ChromaticScale && chordType in ChordTypes()
    ensures |ChordSpelling(root, chordType).0| >= 2 && ChordSpelling(root, chordType).0[0] == root
  {
    ChordOffsetsStartAtZero(chordType);
    SpellStartsOnRoot(IndexOf(ChromaticScale, root), ChordIntervalsOf(chordType));
  }

  /** The offsets of a catalogued chord type begin with the root, 0. */
  lemma ChordOffsetsStartAtZero(chordType: string)
    requires chordType in ChordTypes()
    ensures |ChordIntervalsOf(chordType)| >= 2 && ChordIntervalsOf(chordType)[0] == 0
  {
    var iv := ChordIntervalsOf(chordType);
    var c :| 0 <= c < |ChordIntervals| && ChordIntervals[c] == (chordType, iv);
    ChordEntryStartsAtZero(c);
  }

  /** One row of the chord table begins with the root, 0. */
  lemma ChordEntryStartsAtZero(c: nat)
    requires c < |ChordIntervals|
    ensures |ChordIntervals[c].1| >= 2 && ChordIntervals[c].1[0] == 0
  {
    ChordIntervalsWellFormed();
  }

  /** Offsets starting at 0 spell the root's own name first. */
  lemma SpellStartsOnRoot(rootIndex: int, intervals: seq<int>)
    requires 0 <= rootIndex < 12 && |intervals| >= 2 && intervals[0] == 0
    ensures |Spell(rootIndex, intervals).0| >= 2
    ensures Spell(rootIndex, intervals).0[0] == ChromaticScale[rootIndex]
  {
  }

  /** The offsets `get_scale_notes_and_degrees` uses: the mode's entry (none
      gives `[]`), except that descending a "Melodic Minor" mode looks up the
      name with "Ascending" replaced by "Descending". */
  function ScaleIntervals(mode: string, ascending: bool): seq<int>
  {
    if !ascending && Contains(mode, "Melodic Minor") then
      var descending := Lookup(ModeIntervals, ReplaceAll(mode, "Ascending", "Descending"));
      if descending.Some? then descending.value else []
    else
      var entry := Lookup(ModeIntervals, mode);
      if entry.Some? then entry.value else []
  }

  /** The notes and degree labels of `mode` on `root`; the root must be one of
      the 12 names (the source's `.index` raises otherwise). */
  method GetScaleNotesAndDegrees(mode: string, root: string, ascending: bool)
      returns (notes: seq<string>, degrees: seq<string>)
    requires root in ChromaticScale
    ensures (notes, degrees) == Spell(IndexOf(ChromaticScale, root), ScaleIntervals(mode, ascending))
  {
    var intervals := ScaleIntervals(mode, ascending);
    var rootIndex := IndexOf(ChromaticScale, root);
    notes, degrees := SpellIntervals(rootIndex, intervals);
  }

  // ---------------------------------------------------------------------
  // Facts about the tables

  /** Twelve distinct pitch classes. */
  lemma ChromaticScaleDistinct()
    ensures |ChromaticScale| == 12 && NoDuplicates(ChromaticScale)
  {
  }

  /** Every pitch class sits at its own index. */
  lemma IndexOfChromatic(k: nat)
    requires k < 12
    ensures IndexOf(ChromaticScale, ChromaticScale[k]) == k
  {
    ChromaticScaleDistinct();
  }
  /** The note `interval` semitones above `key` on a 12-note scale `s`. */
  function ShiftOn(s: seq<string>, key: string, interval: int): string
    requires key in s && |s| == 12
  {
    s[(IndexOf(s, key) + interval) % 12]
  }

  /** Moving a note of a scale without repeats works on its index. */
  lemma ShiftOnIndex(s: seq<string>, r: nat, interval: int)
    requires |s| == 12 && NoDuplicates(s) && r < 12
    ensures ShiftOn(s, s[r], interval) == s[(r + interval) % 12]
  {
    IndexOfDistinct(s, r);
  }

  /** The chromatic note `interval` semitones above `key`, as every
      derivation of the source computes it. */
  function Transpose(key: string, interval: int): string
    requires key in ChromaticScale
  {
    ShiftOn(ChromaticScale, key, interval)
  }

  lemma TransposeIndex(r: nat, interval: int)
    requires r < 12
    ensures Transpose(ChromaticScale[r], interval) == ChromaticScale[(r + interval) % 12]
  {
    ChromaticScaleDistinct();
    ShiftOnIndex(ChromaticScale, r, interval);
  }

  /** Moving by a whole number of octaves, and only then, stays on the key. */
  lemma ShiftOnOctaves(s: seq<string>, key: string, interval: int)
    requires key in s && |s| == 12 && NoDuplicates(s)
    ensures ShiftOn(s, key, interval) == key <==> interval % 12 == 0
  {
    var r := IndexOf(s, key);
    ShiftOnIndex(s, r, interval);
    if interval % 12 == 0 {
      assert (r + interval) % 12 == r;
    } else {
      assert (r + interval) % 12 != r;
    }
  }

  lemma TransposeOctaves(key: string, interval: int)
    requires key in ChromaticScale
    ensures Transpose(key, interval) == key <==> interval % 12 == 0
  {
    ChromaticScaleDistinct();
    ShiftOnOctaves(ChromaticScale, key, interval);
  }

  /** An offset that is not a whole number of octaves moves off the key. */
  lemma TransposeMoves(key: string, interval: int)
    requires key in ChromaticScale && interval % 12 != 0
    ensures Transpose(key, interval) != key
  {
    TransposeOctaves(key, interval);
  }



  /** Entry k of the circle is k steps of 5 semitones above C. */
  lemma CircleOfFifthsSteps()
    ensures |CircleOfFifthsNotes| == 12
    ensures forall k :: 0 <= k < 12 ==> CircleOfFifthsNotes[k] == ChromaticScale[(5 * k) % 12]
  {
  }

  /** Stepping by 5 twice returns to the start (25 = 1 mod 12), and distinct
      step counts below 12 reach distinct positions. */
  lemma FifthStepInvolutive(j: int)
    requires 0 <= j < 12
    ensures 0 <= (5 * j) % 12 < 12 && (5 * ((5 * j) % 12)) % 12 == j
  {
    if j < 6 {
      if j < 3 {
        assert j == 0 || j == 1 || j == 2;
      } else {
        assert j == 3 || j == 4 || j == 5;
      }
    } else {
      if j < 9 {
        assert j == 6 || j == 7 || j == 8;
      } else {
        assert j == 9 || j == 10 || j == 11;
      }
    }
  }

  /** A 12-entry sequence read in steps of 5 is a rearrangement of it: each
      entry of `c` is found at position 5j mod 12 of `d`, and `d` stays free
      of duplicates. */
  lemma FifthsReorder<T>(c: seq<T>, d: seq<T>)
    requires |c| == 12 && |d| == 12
    requires forall k :: 0 <= k < 12 ==> d[k] == c[(5 * k) % 12]
    ensures forall j :: 0 <= j < 12 ==> c[j] == d[(5 * j) % 12]
    ensures NoDuplicates(c) ==> NoDuplicates(d)
  {
    forall j | 0 <= j < 12 ensures c[j] == d[(5 * j) % 12] {
      FifthStepInvolutive(j);
    }
    if NoDuplicates(c) {
      forall a, b | 0 <= a < b < 12 ensures d[a] != d[b] {
        FifthStepInvolutive((5 * a) % 12);
        FifthStepInvolutive((5 * b) % 12);
        FifthStepInvolutive(a);
        FifthStepInvolutive(b);
      }
    }
  }

  /** The circle is a permutation of the chromatic scale: it has no duplicates
      and pitch class j sits at circle position 5j mod 12. */
  lemma CircleOfFifthsIsPermutation()
    ensures |CircleOfFifthsNotes| == 12 && NoDuplicates(CircleOfFifthsNotes)
    ensures forall j :: 0 <= j < 12 ==> ChromaticScale[j] == CircleOfFifthsNotes[(5 * j) % 12]
  {
    CircleOfFifthsSteps();
    ChromaticScaleDistinct();
    FifthsReorder(ChromaticScale, CircleOfFifthsNotes);
  }

  /** A 13-entry row that starts at position `k` of a 12-entry cycle, read as
      "entry f is f steps above k". */
  lemma {:induction false} RotationClimbs<T>(c: seq<T>, k: nat, row: seq<T>)
    requires |c| == 12 && k < 12 && row == c[k..] + c[..k + 1]
    ensures |row| == 13 && forall f :: 0 <= f < 13 ==> row[f] == c[(k + f) % 12]
  {
    forall f | 0 <= f < 13 ensures row[f] == c[(k + f) % 12] {
      if f < 12 - k {
        assert (k + f) % 12 == k + f;
      } else {
        assert (k + f) % 12 == k + f - 12;
      }
    }
  }

  /** `row` has 13 frets and fret f is f semitones above chromatic position `k`. */
  predicate Climbs(row: seq<string>, k: int)
  {
    0 <= k < 12 && |row| == 13 &&
    forall f :: 0 <= f < 13 ==> row[f] == ChromaticScale[(k + f) % 12]
  }

  /** A climbing row starts on the note at `k`, so `k` is the open string's
      chromatic index (`index(open)`), and fret 12 repeats the open string. */
  lemma ClimbsFromOpenString(row: seq<string>, k: int)
    requires Climbs(row, k)
    ensures row[0] == ChromaticScale[k] && IndexOf(ChromaticScale, row[0]) == k
    ensures row[12] == row[0]
  {
    assert row[0] == ChromaticScale[k];
    IndexOfChromatic(k);
  }

  lemma StringRow0() ensures GuitarStringsStandard[0].1 == ChromaticScale[4..] + ChromaticScale[..5] {}
  lemma StringRow1() ensures GuitarStringsStandard[1].1 == ChromaticScale[9..] + ChromaticScale[..10] {}
  lemma StringRow2() ensures GuitarStringsStandard[2].1 == ChromaticScale[2..] + ChromaticScale[..3] {}
  lemma StringRow3() ensures GuitarStringsStandard[3].1 == ChromaticScale[7..] + ChromaticScale[..8] {}
  lemma StringRow4() ensures GuitarStringsStandard[4].1 == ChromaticScale[11..] + ChromaticScale[..12]
  {
    assert ChromaticScale[..12] == ChromaticScale;
  }
  lemma StringRow5() ensures GuitarStringsStandard[5].1 == ChromaticScale[4..] + ChromaticScale[..5] {}

  /** Each of the six strings (E, A, D, G, B, E from low to high) climbs the
      chromatic scale from its open note for 13 frets. */
  lemma GuitarRowsAreChromatic()
    ensures |GuitarStringsStandard| == 6
    ensures Climbs(GuitarStringsStandard[0].1, 4)
    ensures Climbs(GuitarStringsStandard[1].1, 9)
    ensures Climbs(GuitarStringsStandard[2].1, 2)
    ensures Climbs(GuitarStringsStandard[3].1, 7)
    ensures Climbs(GuitarStringsStandard[4].1, 11)
    ensures Climbs(GuitarStringsStandard[5].1, 4)
  {
    StringRow0();
    RotationClimbs(ChromaticScale, 4, GuitarStringsStandard[0].1);
    StringRow1();
    RotationClimbs(ChromaticScale, 9, GuitarStringsStandard[1].1);
    StringRow2();
    RotationClimbs(ChromaticScale, 2, GuitarStringsStandard[2].1);
    StringRow3();
    RotationClimbs(ChromaticScale, 7, GuitarStringsStandard[3].1);
    StringRow4();
    RotationClimbs(ChromaticScale, 11, GuitarStringsStandard[4].1);
    StringRow5();
    RotationClimbs(ChromaticScale, 4, GuitarStringsStandard[5].1);
  }

  /** Strictly increasing offsets. */
  predicate Ascending(iv: seq<int>)
  {
    forall i, j :: 0 <= i < j < |iv| ==> iv[i] < iv[j]
  }

  /** Every mode has seven offsets, ascending from 0 and below 12. */
  lemma ModeIntervalsWellFormed()
    ensures forall m :: 0 <= m < |ModeIntervals| ==>
              var iv := ModeIntervals[m].1;
              |iv| == 7 && iv[0] == 0 && Ascending(iv) && iv[6] < 12
  {
  }

  /** The length of a name and two of its letters: a cheap witness that two
      table keys differ, instead of comparing them whole. */
  function NameTag(name: string): (int, char, char)
  {
    if |name| < 3 then (|name|, ' ', ' ') else (|name|, name[1], name[|name| - 3])
  }

  // One lemma per table row, each comparing name tags only, keeps every
  // solver obligation small; `ChordKeyFresh` dispatches on the row.
  lemma ChordKeyFresh0() ensures FreshKey(ChordIntervals, 0) {}
  lemma ChordKeyFresh1() ensures FreshKey(ChordIntervals, 1)
  {
    forall j | 0 <= j < 1 ensures NameTag(ChordIntervals[j].0) != NameTag(ChordIntervals[1].0) {}
  }
  lemma ChordKeyFresh2() ensures FreshKey(ChordIntervals, 2)
  {
    forall j | 0 <= j < 2 ensures NameTag(ChordIntervals[j].0) != NameTag(ChordIntervals[2].0) {}
  }
  lemma ChordKeyFresh3() ensures FreshKey(ChordIntervals, 3)
  {
    forall j | 0 <= j < 3 ensures NameTag(ChordIntervals[j].0) != NameTag(ChordIntervals[3].0) {}
  }
  lemma ChordKeyFresh4() ensures FreshKey(ChordIntervals, 4)
  {
    forall j | 0 <= j < 4 ensures NameTag(ChordIntervals[j].0) != NameTag(ChordIntervals[4].0) {}
  }
  lemma ChordKeyFresh5() ensures FreshKey(ChordIntervals, 5)
  {
    forall j | 0 <= j < 5 ensures NameTag(ChordIntervals[j].0) != NameTag(ChordIntervals[5].0) {}
  }
  lemma ChordKeyFresh6() ensures FreshKey(ChordIntervals, 6)
  {
    forall j | 0 <= j < 6 ensures NameTag(ChordIntervals[j].0) != NameTag(ChordIntervals[6].0) {}
  }
  lemma ChordKeyFresh7() ensures FreshKey(ChordIntervals, 7)
  {
    forall j | 0 <= j < 7 ensures NameTag(ChordIntervals[j].0) != NameTag(ChordIntervals[7].0) {}
  }
  lemma ChordKeyFresh8() ensures FreshKey(ChordIntervals, 8)
  {
    forall j | 0 <= j < 8 ensures NameTag(ChordIntervals[j].0) != NameTag(ChordIntervals[8].0) {}
  }
  lemma ChordKeyFresh9() ensures FreshKey(ChordIntervals, 9)
  {
    forall j | 0 <= j < 9 ensures NameTag(ChordIntervals[j].0) != NameTag(ChordIntervals[9].0) {}
  }
  lemma ChordKeyFresh10() ensures FreshKey(ChordIntervals, 10)
  {
    forall j | 0 <= j < 10 ensures NameTag(ChordIntervals[j].0) != NameTag(ChordIntervals[10].0) {}
  }
  lemma ChordKeyFresh11() ensures FreshKey(ChordIntervals, 11)
  {
    forall j | 0 <= j < 11 ensures NameTag(ChordIntervals[j].0) != NameTag(ChordIntervals[11].0) {}
  }
  lemma ChordKeyFresh12() ensures FreshKey(ChordIntervals, 12)
  {
    forall j | 0 <= j < 12 ensures NameTag(ChordIntervals[j].0) != NameTag(ChordIntervals[12].0) {}
  }
  lemma ChordKeyFresh13() ensures FreshKey(ChordIntervals, 13)
  {
    forall j | 0 <= j < 13 ensures NameTag(ChordIntervals[j].0) != NameTag(ChordIntervals[13].0) {}
  }
  lemma ChordKeyFresh14() ensures FreshKey(ChordIntervals, 14)
  {
    forall j | 0 <= j < 14 ensures NameTag(ChordIntervals[j].0) != NameTag(ChordIntervals[14].0) {}
  }
  lemma ChordKeyFresh15() ensures FreshKey(ChordIntervals, 15)
  {
    forall j | 0 <= j < 15 ensures NameTag(ChordIntervals[j].0) != NameTag(ChordIntervals[15].0) {}
  }

  /** The key of chord entry `i` is not used by an earlier entry. */
  lemma ChordKeyFresh(i: nat)
    requires i < |ChordIntervals|
    ensures FreshKey(ChordIntervals, i)
  {
    if i == 0 { ChordKeyFresh0(); }
    else if i == 1 { ChordKeyFresh1(); }
    else if i == 2 { ChordKeyFresh2(); }
    else if i == 3 { ChordKeyFresh3(); }
    else if i == 4 { ChordKeyFresh4(); }
    else if i == 5 { ChordKeyFresh5(); }
    else if i == 6 { ChordKeyFresh6(); }
    else if i == 7 { ChordKeyFresh7(); }
    else if i == 8 { ChordKeyFresh8(); }
    else if i == 9 { ChordKeyFresh9(); }
    else if i == 10 { ChordKeyFresh10(); }
    else if i == 11 { ChordKeyFresh11(); }
    else if i == 12 { ChordKeyFresh12(); }
    else if i == 13 { ChordKeyFresh13(); }
    else if i == 14 { ChordKeyFresh14(); }
    else { ChordKeyFresh15(); }
  }

  /** No chord key is repeated, so the ordered table behaves as the dict it models. */
  lemma ChordKeysFresh()
    ensures |ChordIntervals| == 16
    ensures forall i :: 0 <= i < |ChordIntervals| ==> FreshKey(ChordIntervals, i)
  {
    forall i | 0 <= i < |ChordIntervals| ensures FreshKey(ChordIntervals, i) {
      ChordKeyFresh(i);
    }
  }

  /** The chord type names are distinct. */
  lemma ChordTypesDistinct()
    ensures NoDuplicates(ChordTypes())
  {
    ChordKeysFresh();
    KeysDistinct(ChordIntervals);
  }

  /** The offsets of entry i are what looking up its name returns. */
  lemma ChordIntervalsOfEntry(i: nat)
    requires i < |ChordIntervals|
    ensures ChordIntervals[i].0 in ChordTypes()
    ensures ChordIntervalsOf(ChordIntervals[i].0) == ChordIntervals[i].1
  {
    ChordKeysFresh();
    LookupAt(ChordIntervals, i);
    assert ChordTypes()[i] == ChordIntervals[i].0;
  }

  /** Spelling entry i by its name, as `calculate_chord_notes` does, is
      spelling the entry's own offsets. */
  lemma CatalogueSpelling(root: string, i: nat)
    requires i < |ChordIntervals|
    ensures ChordIntervals[i].0 in ChordTypes()
    ensures ChordSpelling(root, ChordIntervals[i].0) == SpellOnRoot(root, ChordIntervals[i].1)
  {
    ChordIntervalsOfEntry(i);
  }

  /** Every chord has at least two offsets, starts on the root and rises. */
  lemma ChordIntervalsWellFormed()
    ensures forall c :: 0 <= c < |ChordIntervals| ==>
              var iv := ChordIntervals[c].1;
              |iv| >= 2 && iv[0] == 0 && Ascending(iv)
  {
  }

  /** Every chord offset has a degree label. */
  lemma ChordIntervalsLabelled()
    ensures forall c :: 0 <= c < |ChordIntervals| ==>
              forall k :: 0 <= k < |ChordIntervals[c].1| ==> ChordIntervals[c].1[k] in DegreeNames
  {
  }

  /** "Descending" occurs in one mode name only, after "Melodic Minor ". */
  lemma DescendingOnlyInLastMode(k: nat, j: nat)
    requires k < |ModeIntervals| && OccursAt(ModeIntervals[k].0, "Descending", j)
    ensures k == 9 && j == 14
  {
    var name := ModeIntervals[k].0;
    assert name[j] == 'D' by {
      assert name[j..j + 10][0] == name[j];
    }
  }

  /** Only the two melodic minor names replace to a name of the table: with
      no "Ascending" the name is unchanged, and otherwise its first
      "Ascending" becomes the only "Descending" of the table's names. */
  lemma DescendingPreimage(mode: string)
    requires Lookup(ModeIntervals, ReplaceAll(mode, "Ascending", "Descending")).Some?
    ensures Lookup(ModeIntervals, mode).Some?
  {
    var r := ReplaceAll(mode, "Ascending", "Descending");
    var k :| 0 <= k < |ModeIntervals| && ModeIntervals[k].0 == r;
    if Contains(mode, "Ascending") {
      AscendingRewrittenIsMelodicMinor(mode, k);
    } else {
      ReplaceAbsent(mode, "Ascending", "Descending");
    }
  }

  /** A name holding "Ascending" whose rewrite is a table name is the
      ascending melodic minor. */
  lemma AscendingRewrittenIsMelodicMinor(mode: string, k: nat)
    requires Contains(mode, "Ascending") && k < |ModeIntervals|
    requires ModeIntervals[k].0 == ReplaceAll(mode, "Ascending", "Descending")
    ensures mode == ModeIntervals[8].0
  {
    var r := ModeIntervals[k].0;
    var j := FirstReplacement(mode, "Ascending", "Descending");
    var tail := ReplaceFrom(mode, "Ascending", "Descending", j + 9);
    ReplacedAt(r, mode[..j], "Descending", tail);
    DescendingOnlyInLastMode(k, j);
    ReplaceFromEmpty(mode, "Ascending", "Descending", j + 9);
    MelodicMinorHalves(r, mode);
  }

  /** In `before + rep + tail`, `rep` starts right after `before`. */
  lemma ReplacedAt(r: string, before: string, rep: string, tail: string)
    requires r == before + rep + tail
    ensures OccursAt(r, rep, |before|) && |tail| == |r| - |before| - |rep|
  {
    assert r[|before|..|before| + |rep|] == rep;
  }

  /** A 23-character name that starts like "Melodic Minor Descending" and has
      "Ascending" at position 14 is "Melodic Minor Ascending". */
  lemma MelodicMinorHalves(r: string, mode: string)
    requires r == ModeIntervals[9].0 && |mode| == 23
    requires mode[..14] == r[..14] && OccursAt(mode, "Ascending", 14)
    ensures mode == ModeIntervals[8].0
  {
    assert mode == mode[..14] + mode[14..23];
  }

  /** The descending lookup of a name absent from the table finds nothing. */
  lemma DescendingLookupOfUnknown(mode: string)
    requires Lookup(ModeIntervals, mode).None?
    ensures Lookup(ModeIntervals, ReplaceAll(mode, "Ascending", "Descending")).None?
  {
    if Lookup(ModeIntervals, ReplaceAll(mode, "Ascending", "Descending")).Some? {
      DescendingPreimage(mode);
    }
  }

  /** A name absent from the mode table gives no offsets, in either direction. */
  lemma UnknownModeIsEmpty(mode: string, ascending: bool)
    requires Lookup(ModeIntervals, mode).None?
    ensures ScaleIntervals(mode, ascending) == []
  {
    if !ascending && Contains(mode, "Melodic Minor") {
      DescendingLookupOfUnknown(mode);
    }
  }

  /** Only "Melodic Minor" names depend on the direction flag. */
  lemma DirectionIgnoredOutsideMelodicMinor(mode: string)
    requires !Contains(mode, "Melodic Minor")
    ensures ScaleIntervals(mode, true) == ScaleIntervals(mode, false)
  {
  }

  // The two long "Melodic Minor" names get a lemma each to keep the
  // obligations small.
  lemma ModeKeyFresh8() ensures FreshKey(ModeIntervals, 8)
  {
    forall j | 0 <= j < 8 ensures NameTag(ModeIntervals[j].0) != NameTag(ModeIntervals[8].0) {}
  }
  lemma ModeKeyFresh9() ensures FreshKey(ModeIntervals, 9)
  {
    forall j | 0 <= j < 9 ensures NameTag(ModeIntervals[j].0) != NameTag(ModeIntervals[9].0) {}
  }

  lemma MelodicMinorNamed(s: string)
    requires s == "Melodic Minor Ascending"
    ensures Contains(s, "Melodic Minor")
  {
    assert OccursAt(s, "Melodic Minor", 0);
    MatchAtOccurs(s, "Melodic Minor", 0);
  }

  lemma MelodicMinorRenamed(s: string)
    requires s == "Melodic Minor Ascending"
    ensures ReplaceAll(s, "Ascending", "Descending") == "Melodic Minor Descending"
  {
    ReplaceSkip(s, "Ascending", "Descending", 0, 14);
    assert OccursAt(s, "Ascending", 14);
    ReplaceHit(s, "Ascending", "Descending", 14);
  }

  /** Descending the ascending melodic minor uses the natural-minor upper half:
      the "Descending" entry of the table. */
  lemma MelodicMinorDescends()
    ensures ScaleIntervals("Melodic Minor Ascending", true) == [0, 2, 3, 5, 7, 9, 11]
    ensures ScaleIntervals("Melodic Minor Ascending", false) == [0, 2, 4, 5, 7, 8, 10]
  {
    ModeKeyFresh8();
    LookupAt(ModeIntervals, 8);
    ModeKeyFresh9();
    LookupAt(ModeIntervals, 9);
    MelodicMinorNamed("Melodic Minor Ascending");
    MelodicMinorRenamed("Melodic Minor Ascending");
  }

  lemma SpellAdd9Notes(k: int, iv: seq<int>)
    requires k == 0 && iv == [0, 4, 7, 14]
    ensures Spell(k, iv).0 == ["C", "E", "G", "D"]
  {
    var r := Spell(k, iv).0;
    assert r[0] == ChromaticScale[0] && r[1] == ChromaticScale[4];
    assert r[2] == ChromaticScale[7] && r[3] == ChromaticScale[2];
  }

  lemma SpellAdd9Degrees(k: int, iv: seq<int>)
    requires k == 0 && iv == [0, 4, 7, 14]
    ensures Spell(k, iv).1 == ["R", "3", "5", "9"]
  {
  }

  /** The degree label comes from the unreduced offset: add9's 14 reaches D
      and is labelled "9", not "2". */
  lemma Add9KeepsNinth()
    ensures "add9" in ChordTypes() && ChordIntervalsOf("add9") == [0, 4, 7, 14]
    ensures ChordSpelling("C", "add9") == (["C", "E", "G", "D"], ["R", "3", "5", "9"])
  {
    Add9Entry();
    ChordIntervalsOfEntry(12);
    SpellingOnFirstNote(ChromaticScale[0], "add9", [0, 4, 7, 14]);
    SpellAdd9Notes(0, [0, 4, 7, 14]);
    SpellAdd9Degrees(0, [0, 4, 7, 14]);
  }

  lemma Add9Entry()
    ensures ChordIntervals[12] == ("add9", [0, 4, 7, 14])
  {
  }

  /** A chord on the first chromatic name is spelled from position 0. */
  lemma SpellingOnFirstNote(root: string, chordType: string, iv: seq<int>)
    requires root == ChromaticScale[0]
    requires chordType in ChordTypes() && ChordIntervalsOf(chordType) == iv
    ensures ChordSpelling(root, chordType) == Spell(0, iv)
  {
    IndexOfChromatic(0);
  }
}
