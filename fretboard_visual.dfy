/** The static fretboard drawing: which frets of which strings get a label,
    the text of that label, and its colour from a note-to-colour table. */
module FretboardVisual {
  import opened Util
  import opened NoteSets
  import opened Chords

  /** Colour of a note that no key of the colour table names. */
  const FallbackColor: string := "#FFFFFF"

  /** Frets drawn per string: 0 to 14. */
  const FretCount: nat := 15

  // ---------------------------------------------------------------------
  // get_note_color

  /** The colour of a key equal to the note; else of the first key, in table
      order, one of whose '/'-names is the note; else white. */
  function GetNoteColor(note: string, noteColors: seq<(string, string)>): string
  {
    match Lookup(noteColors, note)
    case Some(c) => c
    case None =>
      match FirstSpelling(Keys(noteColors), note, 0)
      case Some(j) => noteColors[j].1
      case None => FallbackColor
  }

  /** The three rules of the colour choice, each with the case it covers. */
  lemma GetNoteColorCases(note: string, noteColors: seq<(string, string)>)
    ensures Lookup(noteColors, note).Some? ==> GetNoteColor(note, noteColors) == Lookup(noteColors, note).value
    ensures Lookup(noteColors, note).None? ==>
              forall j :: 0 <= j < |noteColors| && note in Split(noteColors[j].0, '/') &&
                          (forall q :: 0 <= q < j ==> note !in Split(noteColors[q].0, '/')) ==>
                            GetNoteColor(note, noteColors) == noteColors[j].1
    ensures (forall j :: 0 <= j < |noteColors| ==> noteColors[j].0 != note && note !in Split(noteColors[j].0, '/')) ==>
              GetNoteColor(note, noteColors) == FallbackColor
  {
    if Lookup(noteColors, note).None? {
      var m := FirstSpelling(Keys(noteColors), note, 0);
      forall j | 0 <= j < |noteColors| && note in Split(noteColors[j].0, '/') &&
                 (forall q :: 0 <= q < j ==> note !in Split(noteColors[q].0, '/'))
        ensures GetNoteColor(note, noteColors) == noteColors[j].1
      {
        assert m.Some?;
      }
    }
  }

  /** A flat name takes the colour of the first two-name key that spells it,
      as "Bb" takes the colour of "A#/Bb". */
  lemma FlatNameTakesKeyColor(noteColors: seq<(string, string)>, j: nat, sharp: string, flat: string)
    requires '/' !in sharp && '/' !in flat
    requires j < |noteColors| && noteColors[j].0 == sharp + "/" + flat
    requires forall q :: 0 <= q < |noteColors| ==> noteColors[q].0 != flat
    requires forall q :: 0 <= q < j ==> flat !in Split(noteColors[q].0, '/')
    ensures GetNoteColor(flat, noteColors) == noteColors[j].1
  {
    assert sharp + "/" + flat == sharp + ['/'] + flat;
    SplitTwoNames(sharp, flat, '/');
    assert flat in Split(noteColors[j].0, '/');
    GetNoteColorCases(flat, noteColors);
  }

  // ---------------------------------------------------------------------
  // Notes and labels on the fretboard

  /** The note drawn at a fret: frets past 11 wrap onto the row's start. */
  function NoteAtFret(row: seq<string>, fret: nat): string
    requires |row| >= 12
  {
    row[fret % 12]
  }

  /** Frets 12 to 14 repeat frets 0 to 2. */
  lemma OctaveFretsRepeat(row: seq<string>, fret: nat)
    requires |row| >= 12
    ensures NoteAtFret(row, fret + 12) == NoteAtFret(row, fret)
  {
  }

  /** On a row that climbs the chromatic scale from its open note, every
      drawn fret keeps climbing: fret f is f semitones above the open note. */
  lemma FretNoteClimbs(row: seq<string>, k: int, fret: nat)
    requires Climbs(row, k)
    ensures NoteAtFret(row, fret) == ChromaticScale[(k + fret) % 12]
  {
    assert row[fret % 12] == ChromaticScale[(k + fret % 12) % 12];
    assert (k + fret % 12) % 12 == (k + fret) % 12;
  }

  /** The label requested of a chord note can be found: the degree list
      reaches the note's first position whenever degrees are shown. */
  predicate LabelDefined(note: string, chordNotes: seq<string>, chordDegrees: seq<string>, showDegrees: bool)
  {
    showDegrees && note in chordNotes ==> IndexOf(chordNotes, note) < |chordDegrees|
  }

  /** The text drawn on a fret: nothing for a note outside the chord, else
      the note or its degree (the degree at the note's first position). */
  function FretLabel(note: string, chordNotes: seq<string>, chordDegrees: seq<string>, showDegrees: bool): (r: Option<string>)
    requires LabelDefined(note, chordNotes, chordDegrees, showDegrees)
    ensures r.Some? <==> IsNoteInChord(note, chordNotes)
    ensures r.Some? && !showDegrees ==> r.value == note
  {
    if !IsNoteInChord(note, chordNotes) then None
    else if !showDegrees then Some(note)
    else Some(chordDegrees[IndexOf(chordNotes, note)])
  }

  /** With the chord's notes distinct, the degree shown for the note at
      position i is the degree at position i. */
  lemma DegreeLabelsAlign(chordNotes: seq<string>, chordDegrees: seq<string>, i: nat)
    requires NoDuplicates(chordNotes) && |chordDegrees| == |chordNotes| && i < |chordNotes|
    ensures LabelDefined(chordNotes[i], chordNotes, chordDegrees, true)
    ensures FretLabel(chordNotes[i], chordNotes, chordDegrees, true) == Some(chordDegrees[i])
  {
    IndexOfDistinct(chordNotes, i);
  }

  /** One text placed on the drawing. */
  datatype Mark = Mark(stringNumber: nat, fret: nat, text: string, color: string)

  /** Every fret of the row has a label that can be found. */
  predicate RowLabelsDefined(row: seq<string>, chordNotes: seq<string>, chordDegrees: seq<string>, showDegrees: bool)
    requires |row| >= 12
  {
    forall f :: 0 <= f < FretCount ==> LabelDefined(NoteAtFret(row, f), chordNotes, chordDegrees, showDegrees)
  }

  /** Every row is long enough and has every label it needs. */
  predicate TableDrawable(table: seq<(string, seq<string>)>, chordNotes: seq<string>, chordDegrees: seq<string>,
                          showDegrees: bool)
  {
    forall s :: 0 <= s < |table| ==>
      |table[s].1| >= 12 && RowLabelsDefined(table[s].1, chordNotes, chordDegrees, showDegrees)
  }

  /** The mark of one fret, if its note is in the chord. */
  function FretMark(stringNumber: nat, row: seq<string>, noteColors: seq<(string, string)>,
                    chordNotes: seq<string>, chordDegrees: seq<string>, showDegrees: bool, f: nat): seq<Mark>
    requires |row| >= 12 && f < FretCount && RowLabelsDefined(row, chordNotes, chordDegrees, showDegrees)
  {
    var note := NoteAtFret(row, f);
    match FretLabel(note, chordNotes, chordDegrees, showDegrees)
    case Some(text) => [Mark(stringNumber, f, text, GetNoteColor(note, noteColors))]
    case None => []
  }

  /** The marks of one string for frets below `n`, in fret order. */
  function StringMarks(stringNumber: nat, row: seq<string>, noteColors: seq<(string, string)>,
                       chordNotes: seq<string>, chordDegrees: seq<string>, showDegrees: bool, n: nat): seq<Mark>
    requires |row| >= 12 && n <= FretCount && RowLabelsDefined(row, chordNotes, chordDegrees, showDegrees)
  {
    if n == 0 then []
    else
      StringMarks(stringNumber, row, noteColors, chordNotes, chordDegrees, showDegrees, n - 1) +
      FretMark(stringNumber, row, noteColors, chordNotes, chordDegrees, showDegrees, n - 1)
  }

  /** `m` is what the drawing places at its fret: the fret is drawn, its note
      is in the chord, and the text and colour are that note's. */
  predicate IsFretMark(row: seq<string>, noteColors: seq<(string, string)>, chordNotes: seq<string>,
                       chordDegrees: seq<string>, showDegrees: bool, m: Mark)
    requires |row| >= 12 && RowLabelsDefined(row, chordNotes, chordDegrees, showDegrees)
  {
    m.fret < FretCount && IsNoteInChord(NoteAtFret(row, m.fret), chordNotes) &&
    Some(m.text) == FretLabel(NoteAtFret(row, m.fret), chordNotes, chordDegrees, showDegrees) &&
    m.color == GetNoteColor(NoteAtFret(row, m.fret), noteColors)
  }

  lemma FretMarkMembers(stringNumber: nat, row: seq<string>, noteColors: seq<(string, string)>,
                        chordNotes: seq<string>, chordDegrees: seq<string>, showDegrees: bool, f: nat, m: Mark)
    requires |row| >= 12 && f < FretCount && RowLabelsDefined(row, chordNotes, chordDegrees, showDegrees)
    ensures m in FretMark(stringNumber, row, noteColors, chordNotes, chordDegrees, showDegrees, f) <==>
            m.stringNumber == stringNumber && m.fret == f &&
            IsFretMark(row, noteColors, chordNotes, chordDegrees, showDegrees, m)
  {
  }

  lemma FretMarkSound(stringNumber: nat, row: seq<string>, noteColors: seq<(string, string)>,
                      chordNotes: seq<string>, chordDegrees: seq<string>, showDegrees: bool, f: nat, m: Mark)
    requires |row| >= 12 && f < FretCount && RowLabelsDefined(row, chordNotes, chordDegrees, showDegrees)
    requires m in FretMark(stringNumber, row, noteColors, chordNotes, chordDegrees, showDegrees, f)
    ensures m.stringNumber == stringNumber && m.fret <= f &&
            IsFretMark(row, noteColors, chordNotes, chordDegrees, showDegrees, m)
  {
    FretMarkMembers(stringNumber, row, noteColors, chordNotes, chordDegrees, showDegrees, f, m);
  }

  /** A string carries a mark exactly at the frets whose note is in the
      chord, with the fret's label and the note's colour. */
  lemma StringMarksMembers(stringNumber: nat, row: seq<string>, noteColors: seq<(string, string)>,
                           chordNotes: seq<string>, chordDegrees: seq<string>, showDegrees: bool,
                           n: nat, m: Mark)
    requires |row| >= 12 && n <= FretCount && RowLabelsDefined(row, chordNotes, chordDegrees, showDegrees)
    ensures m in StringMarks(stringNumber, row, noteColors, chordNotes, chordDegrees, showDegrees, n) <==>
            m.stringNumber == stringNumber && m.fret < n &&
            IsFretMark(row, noteColors, chordNotes, chordDegrees, showDegrees, m)
  {
    if m in StringMarks(stringNumber, row, noteColors, chordNotes, chordDegrees, showDegrees, n) {
      StringMarksSound(stringNumber, row, noteColors, chordNotes, chordDegrees, showDegrees, n, m);
    }
    if m.stringNumber == stringNumber && m.fret < n &&
       IsFretMark(row, noteColors, chordNotes, chordDegrees, showDegrees, m) {
      StringMarksComplete(stringNumber, row, noteColors, chordNotes, chordDegrees, showDegrees, n, m);
    }
  }

  lemma {:induction false} StringMarksSound(stringNumber: nat, row: seq<string>, noteColors: seq<(string, string)>,
                                            chordNotes: seq<string>, chordDegrees: seq<string>, showDegrees: bool,
                                            n: nat, m: Mark)
    requires |row| >= 12 && n <= FretCount && RowLabelsDefined(row, chordNotes, chordDegrees, showDegrees)
    requires m in StringMarks(stringNumber, row, noteColors, chordNotes, chordDegrees, showDegrees, n)
    ensures m.stringNumber == stringNumber && m.fret < n &&
            IsFretMark(row, noteColors, chordNotes, chordDegrees, showDegrees, m)
  {
    if n == 0 {
      assert false;
    } else if m in StringMarks(stringNumber, row, noteColors, chordNotes, chordDegrees, showDegrees, n - 1) {
      StringMarksSound(stringNumber, row, noteColors, chordNotes, chordDegrees, showDegrees, n - 1, m);
    } else {
      FretMarkSound(stringNumber, row, noteColors, chordNotes, chordDegrees, showDegrees, n - 1, m);
    }
  }

  lemma {:induction false} StringMarksComplete(stringNumber: nat, row: seq<string>, noteColors: seq<(string, string)>,
                                               chordNotes: seq<string>, chordDegrees: seq<string>, showDegrees: bool,
                                               n: nat, m: Mark)
    requires |row| >= 12 && n <= FretCount && RowLabelsDefined(row, chordNotes, chordDegrees, showDegrees)
    requires m.stringNumber == stringNumber && m.fret < n
    requires IsFretMark(row, noteColors, chordNotes, chordDegrees, showDegrees, m)
    ensures m in StringMarks(stringNumber, row, noteColors, chordNotes, chordDegrees, showDegrees, n)
  {
    var before := StringMarks(stringNumber, row, noteColors, chordNotes, chordDegrees, showDegrees, n - 1);
    var here := FretMark(stringNumber, row, noteColors, chordNotes, chordDegrees, showDegrees, n - 1);
    if m.fret < n - 1 {
      StringMarksComplete(stringNumber, row, noteColors, chordNotes, chordDegrees, showDegrees, n - 1, m);
    } else {
      FretMarkMembers(stringNumber, row, noteColors, chordNotes, chordDegrees, showDegrees, n - 1, m);
    }
    assert StringMarks(stringNumber, row, noteColors, chordNotes, chordDegrees, showDegrees, n) == before + here;
  }

  /** The marks of the first `k` strings of the table, string by string. */
  function FretboardMarksUpTo(table: seq<(string, seq<string>)>, noteColors: seq<(string, string)>,
                              chordNotes: seq<string>, chordDegrees: seq<string>, showDegrees: bool, k: nat): seq<Mark>
    requires k <= |table|
    requires TableDrawable(table, chordNotes, chordDegrees, showDegrees)
  {
    if k == 0 then []
    else FretboardMarksUpTo(table, noteColors, chordNotes, chordDegrees, showDegrees, k - 1) +
         StringMarks(k, table[k - 1].1, noteColors, chordNotes, chordDegrees, showDegrees, FretCount)
  }

  /** The labels of one string, fret 0 to 14 (the inner loop of the drawing). */
  method DrawStringMarks(stringNumber: nat, row: seq<string>, noteColors: seq<(string, string)>,
                         chordNotes: seq<string>, chordDegrees: seq<string>, showDegrees: bool)
      returns (marks: seq<Mark>)
    requires |row| >= 12 && RowLabelsDefined(row, chordNotes, chordDegrees, showDegrees)
    ensures marks == StringMarks(stringNumber, row, noteColors, chordNotes, chordDegrees, showDegrees, FretCount)
  {
    marks := [];
    for fret := 0 to FretCount
      invariant marks == StringMarks(stringNumber, row, noteColors, chordNotes, chordDegrees, showDegrees, fret)
    {
      var note := NoteAtFret(row, fret);
      FretMarkDrawn(stringNumber, row, noteColors, chordNotes, chordDegrees, showDegrees, fret);
      if IsNoteInChord(note, chordNotes) {
        var noteColor := GetNoteColor(note, noteColors);
        var displayText := if !showDegrees then note else chordDegrees[IndexOf(chordNotes, note)];
        marks := marks + [Mark(stringNumber, fret, displayText, noteColor)];
      }
    }
  }

  /** The mark of a fret as the drawing computes it: the note's colour, and
      the note or the degree at its first position in the chord. */
  lemma FretMarkDrawn(stringNumber: nat, row: seq<string>, noteColors: seq<(string, string)>,
                      chordNotes: seq<string>, chordDegrees: seq<string>, showDegrees: bool, f: nat)
    requires |row| >= 12 && f < FretCount && RowLabelsDefined(row, chordNotes, chordDegrees, showDegrees)
    ensures LabelDefined(NoteAtFret(row, f), chordNotes, chordDegrees, showDegrees)
    ensures IsNoteInChord(NoteAtFret(row, f), chordNotes) ==>
              StringMarks(stringNumber, row, noteColors, chordNotes, chordDegrees, showDegrees, f + 1) ==
              StringMarks(stringNumber, row, noteColors, chordNotes, chordDegrees, showDegrees, f) +
              [Mark(stringNumber, f, if !showDegrees then NoteAtFret(row, f)
                                     else chordDegrees[IndexOf(chordNotes, NoteAtFret(row, f))],
                    GetNoteColor(NoteAtFret(row, f), noteColors))]
    ensures !IsNoteInChord(NoteAtFret(row, f), chordNotes) ==>
              StringMarks(stringNumber, row, noteColors, chordNotes, chordDegrees, showDegrees, f + 1) ==
              StringMarks(stringNumber, row, noteColors, chordNotes, chordDegrees, showDegrees, f)
  {
    assert LabelDefined(NoteAtFret(row, f), chordNotes, chordDegrees, showDegrees);
  }

  /** The drawing's labels: strings numbered from 1 in table order, frets 0
      to 14, a mark wherever the fret's note is in the chord. */
  method GuitarFretboardMarks(table: seq<(string, seq<string>)>, noteColors: seq<(string, string)>,
                              chordNotes: seq<string>, chordDegrees: seq<string>, showDegrees: bool)
      returns (marks: seq<Mark>)
    requires TableDrawable(table, chordNotes, chordDegrees, showDegrees)
    ensures marks == FretboardMarksUpTo(table, noteColors, chordNotes, chordDegrees, showDegrees, |table|)
  {
    marks := [];
    for s := 0 to |table|
      invariant marks == FretboardMarksUpTo(table, noteColors, chordNotes, chordDegrees, showDegrees, s)
    {
      var stringMarks := DrawStringMarks(s + 1, table[s].1, noteColors, chordNotes, chordDegrees, showDegrees);
      marks := marks + stringMarks;
    }
  }

  /** The six strings are drawn from the guitar table in its own key order,
      each row long enough for the wrapped frets. */
  lemma GuitarTableDrawable()
    ensures Keys(GuitarStringsStandard) == ["E_low", "A", "D", "G", "B", "E_high"]
    ensures forall s :: 0 <= s < |GuitarStringsStandard| ==> |GuitarStringsStandard[s].1| >= 12
  {
  }
}
