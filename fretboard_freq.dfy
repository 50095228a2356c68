/** The frequency fretboard page: a table of note labels with their pitch in
    hertz, a button per string and fret that records the pressed note, and
    the two places that read the frequency text back out of a record.

    A label of the source table is `name + " (" + hertz + " Hz)"`; the model
    keeps each label as its (name, hertz) pair and renders it with `Label`. */
module FretboardFreq {
  import opened Util
  import opened NoteSets

  // ---------------------------------------------------------------------
  // The table

  const StringNames: seq<string> := ["E_low", "A", "D", "G", "B", "E_high"]

  /** Per string from low to high, per fret 0..12: note name and hertz text. */
  const Pitches: seq<seq<(string, string)>> := [LowERow, ARow, DRow, GRow, BRow, HighERow]

  const LowERow: seq<(string, string)> := [
    ("E", "82.41"), ("F", "87.31"), ("F#/Gb", "92.5"), ("G", "98.0"), ("G#/Ab", "103.83"), ("A", "110.0"),
    ("A#/Bb", "116.55"), ("B", "123.48"), ("C", "130.82"), ("C#/Db", "138.6"), ("D", "146.84"),
    ("D#/Eb", "155.57"), ("E", "164.82")]

  const ARow: seq<(string, string)> := [
    ("A", "110.0"), ("A#/Bb", "116.54"), ("B", "123.47"), ("C", "130.81"), ("C#/Db", "138.59"), ("D", "146.83"),
    ("D#/Eb", "155.56"), ("E", "164.81"), ("F", "174.61"), ("F#/Gb", "185.0"), ("G", "196.0"),
    ("G#/Ab", "207.65"), ("A", "220.0")]

  const DRow: seq<(string, string)> := [
    ("D", "146.83"), ("D#/Eb", "155.56"), ("E", "164.81"), ("F", "174.61"), ("F#/Gb", "184.99"), ("G", "195.99"),
    ("G#/Ab", "207.65"), ("A", "220.0"), ("A#/Bb", "233.08"), ("B", "246.94"), ("C", "261.62"),
    ("C#/Db", "277.18"), ("D", "293.66")]

  const GRow: seq<(string, string)> := [
    ("G", "196.0"), ("G#/Ab", "207.65"), ("A", "220.0"), ("A#/Bb", "233.08"), ("B", "246.94"), ("C", "261.63"),
    ("C#/Db", "277.19"), ("D", "293.67"), ("D#/Eb", "311.13"), ("E", "329.63"), ("F", "349.23"),
    ("F#/Gb", "370.0"), ("G", "392.0")]

  const BRow: seq<(string, string)> := [
    ("B", "246.94"), ("C", "261.62"), ("C#/Db", "277.18"), ("D", "293.66"), ("D#/Eb", "311.12"), ("E", "329.63"),
    ("F", "349.23"), ("F#/Gb", "369.99"), ("G", "391.99"), ("G#/Ab", "415.3"), ("A", "440.0"),
    ("A#/Bb", "466.16"), ("B", "493.88")]

  const HighERow: seq<(string, string)> := [
    ("E", "329.63"), ("F", "349.23"), ("F#/Gb", "370.0"), ("G", "392.0"), ("G#/Ab", "415.31"), ("A", "440.0"),
    ("A#/Bb", "466.17"), ("B", "493.89"), ("C", "523.26"), ("C#/Db", "554.37"), ("D", "587.33"),
    ("D#/Eb", "622.26"), ("E", "659.26")]

  /** A label as the table writes it, e.g. "F#/Gb (92.5 Hz)". */
  function Label(name: string, hertz: string): string
  {
    name + " (" + hertz + " Hz)"
  }

  /** The label of string `s` (low to high) at fret `f`. */
  function FretboardEntry(s: nat, f: nat): string
    requires s < |Pitches| && f < |Pitches[s]|
  {
    Label(Pitches[s][f].0, Pitches[s][f].1)
  }

  /** Hertz text that survives the splits: no space and no parenthesis. */
  predicate PlainNumber(hertz: string)
  {
    ' ' !in hertz && '(' !in hertz
  }

  lemma TableShape()
    ensures |StringNames| == |Pitches| == 6
    ensures forall s :: 0 <= s < 6 ==> |Pitches[s]| == 13
  {
  }

  /** Every hertz text of a row is a plain number. */
  predicate RowPlain(row: seq<(string, string)>)
  {
    forall f :: 0 <= f < |row| ==> PlainNumber(row[f].1)
  }

  lemma RowNumbersPlain(s: nat)
    requires s < 6
    ensures RowPlain(Pitches[s])
  {
    if s == 0 { LowEPlain(); }
    else if s == 1 { APlain(); }
    else if s == 2 { DPlain(); }
    else if s == 3 { GPlain(); }
    else if s == 4 { BPlain(); }
    else { HighEPlain(); }
  }

  lemma LowEPlain() ensures RowPlain(LowERow) {}
  lemma APlain() ensures RowPlain(ARow) {}
  lemma DPlain() ensures RowPlain(DRow) {}
  lemma GPlain() ensures RowPlain(GRow) {}
  lemma BPlain() ensures RowPlain(BRow) {}
  lemma HighEPlain() ensures RowPlain(HighERow) {}

  /** The note names of each row are those of the guitar table: string `s`
      has the same name and fret-by-fret the same notes. */
  lemma RowNamesMatchGuitar(s: nat)
    requires s < 6
    ensures StringNames[s] == GuitarStringsStandard[s].0
    ensures |Pitches[s]| == |GuitarStringsStandard[s].1|
    ensures forall f :: 0 <= f < |Pitches[s]| ==> Pitches[s][f].0 == GuitarStringsStandard[s].1[f]
  {
  }

  // ---------------------------------------------------------------------
  // Display order

  /** Strings are shown high to low. */
  function DisplayStrings(): (r: seq<string>)
    ensures |r| == |StringNames|
  {
    Reversed(StringNames)
  }

  /** The table row read for display row `i`. */
  function OriginalStringIndex(i: nat): (r: nat)
    requires i < |StringNames|
    ensures r < |StringNames|
  {
    |StringNames| - 1 - i
  }

  /** Display row `i` reads the row of the string it is labelled with, and
      the mapping is its own inverse, so every row is shown exactly once. */
  lemma DisplayRowMatchesString(i: nat)
    requires i < |StringNames|
    ensures DisplayStrings()[i] == StringNames[OriginalStringIndex(i)]
    ensures OriginalStringIndex(OriginalStringIndex(i)) == i
  {
  }

  // ---------------------------------------------------------------------
  // Splitting a label

  /** All space-separated parts but the last two, joined by spaces (Python
      slicing gives no parts when there are fewer than two). */
  function NoteName(info: string): string
  {
    var parts := Split(info, ' ');
    if |parts| >= 2 then Join(parts[..|parts| - 2], " ") else ""
  }

  /** The second-to-last space-separated part; a label with no space fails. */
  function FrequencyToken(info: string): string
    requires |Split(info, ' ')| >= 2
  {
    var parts := Split(info, ' ');
    parts[|parts| - 2]
  }

  /** A label splits back into its name and "(" followed by its hertz. */
  lemma LabelParts(name: string, hertz: string)
    requires PlainNumber(hertz)
    ensures Split(Label(name, hertz), ' ') == Split(name, ' ') + ["(" + hertz, "Hz)"]
    ensures |Split(Label(name, hertz), ' ')| >= 2
    ensures NoteName(Label(name, hertz)) == name
    ensures FrequencyToken(Label(name, hertz)) == "(" + hertz
  {
    var rest := "(" + hertz + " Hz)";
    assert Label(name, hertz) == name + [' '] + rest;
    SplitAppend(name, rest, ' ');
    assert rest == ("(" + hertz) + [' '] + "Hz)";
    SplitAppend("(" + hertz, "Hz)", ' ');
    SplitNone("(" + hertz, ' ');
    SplitNone("Hz)", ' ');
    var parts := Split(Label(name, hertz), ' ');
    assert parts[..|parts| - 2] == Split(name, ' ');
    JoinSplit(name, ' ');
  }

  /** The frequency kept in a record: the token with " Hz" after it. */
  function StoredFrequency(token: string): string
  {
    token + " Hz"
  }

  /** The text the wave display converts: after the first "(", up to the
      next space. A text without "(" fails. */
  function WaveFrequencyText(frequency: string): string
    requires |Split(frequency, '(')| >= 2
  {
    Split(Split(frequency, '(')[1], ' ')[0]
  }

  /** The text the history converts: the first space-separated part without
      its first character. */
  function HistoryFrequencyText(frequency: string): string
  {
    var first := Split(frequency, ' ')[0];
    if |first| >= 1 then first[1..] else ""
  }

  /** Both readers recover the hertz text from a stored frequency. */
  lemma FrequencyRoundTrip(hertz: string)
    requires PlainNumber(hertz)
    ensures |Split(StoredFrequency("(" + hertz), '(')| >= 2
    ensures WaveFrequencyText(StoredFrequency("(" + hertz)) == hertz
    ensures HistoryFrequencyText(StoredFrequency("(" + hertz)) == hertz
  {
    var stored := StoredFrequency("(" + hertz);
    assert stored == "" + ['('] + (hertz + " Hz");
    SplitAppend("", hertz + " Hz", '(');
    assert '(' !in hertz + " Hz";
    SplitNone(hertz + " Hz", '(');
    SplitNone("", '(');
    assert hertz + " Hz" == hertz + [' '] + "Hz";
    SplitAppend(hertz, "Hz", ' ');
    SplitNone(hertz, ' ');
    assert stored == "(" + hertz + [' '] + "Hz";
    SplitAppend("(" + hertz, "Hz", ' ');
    SplitNone("(" + hertz, ' ');
  }

  // ---------------------------------------------------------------------
  // Pressing a button

  /** One pressed note, as the page records it. */
  datatype SelectedNote = SelectedNote(note: string, stringName: string, fret: nat, frequency: string)

  /** The record of display row `i`, fret `f`. */
  function ButtonRecord(i: nat, f: nat): SelectedNote
    requires i < |StringNames| && f < 13
  {
    TableShape();
    var info := FretboardEntry(OriginalStringIndex(i), f);
    RowNumbersPlain(OriginalStringIndex(i));
    LabelParts(Pitches[OriginalStringIndex(i)][f].0, Pitches[OriginalStringIndex(i)][f].1);
    SelectedNote(NoteName(info), DisplayStrings()[i], f, StoredFrequency(FrequencyToken(info)))
  }

  /** A button records the note and string of its own cell, and both readers
      recover that cell's hertz from the record. */
  lemma ButtonRecordMeaning(i: nat, f: nat)
    requires i < |StringNames| && f < 13
    ensures ButtonRecord(i, f).note == Pitches[|StringNames| - 1 - i][f].0
    ensures ButtonRecord(i, f).stringName == StringNames[|StringNames| - 1 - i]
    ensures ButtonRecord(i, f).fret == f
    ensures |Split(ButtonRecord(i, f).frequency, '(')| >= 2
    ensures WaveFrequencyText(ButtonRecord(i, f).frequency) == Pitches[|StringNames| - 1 - i][f].1
    ensures HistoryFrequencyText(ButtonRecord(i, f).frequency) == Pitches[|StringNames| - 1 - i][f].1
  {
    var s := OriginalStringIndex(i);
    TableShape();
    RowNumbersPlain(s);
    LabelParts(Pitches[s][f].0, Pitches[s][f].1);
    DisplayRowMatchesString(i);
    FrequencyRoundTrip(Pitches[s][f].1);
  }

  /** A record whose frequency both readers accept. */
  predicate Readable(n: SelectedNote)
  {
    |Split(n.frequency, '(')| >= 2
  }

  /** The frequencies the wave display lists: those of the notes whose box
      is ticked, in selection order. */
  method DisplayedFrequencies(selected: seq<SelectedNote>, displayed: seq<bool>) returns (texts: seq<string>)
    requires |displayed| == |selected|
    requires forall k :: 0 <= k < |selected| ==> Readable(selected[k])
    ensures texts == TickedFrequencies(selected, displayed)
  {
    texts := [];
    for idx := 0 to |selected|
      invariant texts == TickedFrequencies(selected[..idx], displayed[..idx])
    {
      assert selected[..idx + 1][..idx] == selected[..idx];
      assert displayed[..idx + 1][..idx] == displayed[..idx];
      var frequency := WaveFrequencyText(selected[idx].frequency);
      if displayed[idx] {
        texts := texts + [frequency];
      }
    }
    assert selected[..|selected|] == selected;
    assert displayed[..|displayed|] == displayed;
  }

  function TickedFrequencies(selected: seq<SelectedNote>, displayed: seq<bool>): seq<string>
    requires |displayed| == |selected|
    requires forall k :: 0 <= k < |selected| ==> Readable(selected[k])
  {
    if |selected| == 0 then []
    else
      var n := |selected| - 1;
      assert Readable(selected[n]);
      TickedFrequencies(selected[..n], displayed[..n]) +
      (if displayed[n] then [WaveFrequencyText(selected[n].frequency)] else [])
  }

  /** With every box ticked the display lists one text per selected note. */
  lemma {:induction false} AllTickedListsAll(selected: seq<SelectedNote>, displayed: seq<bool>)
    requires |displayed| == |selected|
    requires forall k :: 0 <= k < |selected| ==> Readable(selected[k])
    requires forall k :: 0 <= k < |displayed| ==> displayed[k]
    ensures |TickedFrequencies(selected, displayed)| == |selected|
    ensures forall k :: 0 <= k < |selected| ==>
              TickedFrequencies(selected, displayed)[k] == WaveFrequencyText(selected[k].frequency)
  {
    if |selected| > 0 {
      var n := |selected| - 1;
      AllTickedListsAll(selected[..n], displayed[..n]);
      assert displayed[n];
    }
  }

  /** The frequencies a history entry shows, one per note. */
  function HistoryFrequencies(chord: seq<SelectedNote>): (r: seq<string>)
    ensures |r| == |chord|
    ensures forall k :: 0 <= k < |chord| ==> r[k] == HistoryFrequencyText(chord[k].frequency)
  {
    if |chord| == 0 then [] else [HistoryFrequencyText(chord[0].frequency)] + HistoryFrequencies(chord[1..])
  }

  /** A record made by a button is read the same way by both displays. */
  lemma ReadersAgreeOnButtons(i: nat, f: nat)
    requires i < |StringNames| && f < 13
    ensures Readable(ButtonRecord(i, f))
    ensures WaveFrequencyText(ButtonRecord(i, f).frequency) == HistoryFrequencyText(ButtonRecord(i, f).frequency)
  {
    ButtonRecordMeaning(i, f);
  }

  // ---------------------------------------------------------------------
  // The selection and its history (the page's session state)

  class FreqSelection {
    var selectedNotes: seq<SelectedNote>
    var notesHistory: seq<seq<SelectedNote>>

    /** No record is selected twice, and so no saved chord repeats one. */
    predicate Valid()
      reads this
    {
      NoDuplicates(selectedNotes) &&
      forall h :: 0 <= h < |notesHistory| ==> NoDuplicates(notesHistory[h])
    }

    constructor()
      ensures Valid() && selectedNotes == [] && notesHistory == []
    {
      selectedNotes := [];
      notesHistory := [];
    }

    /** A button press: the record is appended unless already selected; there
        is no cap on the number of notes. */
    method Press(record: SelectedNote)
      requires Valid()
      modifies this
      ensures Valid()
      ensures record in old(selectedNotes) ==> selectedNotes == old(selectedNotes)
      ensures record !in old(selectedNotes) ==> selectedNotes == old(selectedNotes) + [record]
      ensures record in selectedNotes
      ensures notesHistory == old(notesHistory)
    {
      if record !in selectedNotes {
        selectedNotes := selectedNotes + [record];
      }
    }

    /** "Clear Selected Notes": a non-empty selection is saved at the end of
        the history and emptied; an empty one changes nothing. */
    method Clear()
      requires Valid()
      modifies this
      ensures Valid() && selectedNotes == []
      ensures old(selectedNotes) != [] ==> notesHistory == old(notesHistory) + [old(selectedNotes)]
      ensures old(selectedNotes) == [] ==> notesHistory == old(notesHistory)
    {
      if selectedNotes != [] {
        notesHistory := notesHistory + [selectedNotes];
        selectedNotes := [];
      }
    }

    /** "Reset All": both lists end empty (they are emptied only when one of
        them is not, which leaves the same state). */
    method Reset()
      modifies this
      ensures Valid() && selectedNotes == [] && notesHistory == []
    {
      if selectedNotes != [] || notesHistory != [] {
        selectedNotes := [];
        notesHistory := [];
      }
    }
  }
}
