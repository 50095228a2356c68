/** The guitar scale finder page: every mode of its own table on every root,
    the scales that hold all selected notes, the notes of one mode, the colour
    of a fretboard note, and the capped note selection with its history.

    The page's helpers are closures over its local chromatic scale and mode
    table; here those two tables are parameters (`scale`, `modes`), and the
    page's own values are `ChromaticScale` and `LocalModeIntervals`. */
module FretboardSelect {
  import opened Util
  import opened NoteSets

  // ---------------------------------------------------------------------
  // Tables

  /** The page's mode table: no melodic minor, and a Phrygian Dominant. */
  const LocalModeIntervals: seq<(string, seq<int>)> := [
    ("Ionian", [0, 2, 4, 5, 7, 9, 11]),
    ("Dorian", [0, 2, 3, 5, 7, 9, 10]),
    ("Phrygian", [0, 1, 3, 5, 7, 8, 10]),
    ("Lydian", [0, 2, 4, 6, 7, 9, 11]),
    ("Mixolydian", [0, 2, 4, 5, 7, 9, 10]),
    ("Aeolian", [0, 2, 3, 5, 7, 8, 10]),
    ("Locrian", [0, 1, 3, 5, 6, 8, 10]),
    ("Harmonic Minor", [0, 2, 3, 5, 7, 8, 11]),
    ("Phrygian Dominant", [0, 1, 4, 5, 7, 8, 10])
  ]

  const NonSelectedNoteColor: string := "#d3d3d3"

  const SelectedNoteColors: seq<string> := ["#FF6347", "#4682B4", "#FFD700", "#32CD32", "#DA70D6"]

  /** The most notes the selection holds. */
  const MaxSelected: nat := 5

  // ---------------------------------------------------------------------
  // generate_all_modes_scales

  /** The notes of a mode on `note`: each offset moved up from the note. */
  function NotesOn(scale: seq<string>, note: string, intervals: seq<int>): (r: seq<string>)
    requires |scale| == 12 && note in scale
    ensures |r| == |intervals|
    ensures forall i :: 0 <= i < |intervals| ==> r[i] == ShiftOn(scale, note, intervals[i])
  {
    seq(|intervals|, i requires 0 <= i < |intervals| => ShiftOn(scale, note, intervals[i]))
  }

  /** On a scale without repeats, note `i` of the mode on the scale's entry
      `r` is the entry `r + intervals[i]` semitones round the octave. */
  lemma NotesOnIndex(scale: seq<string>, r: nat, intervals: seq<int>, i: nat)
    requires |scale| == 12 && NoDuplicates(scale) && r < 12 && i < |intervals|
    ensures NotesOn(scale, scale[r], intervals)[i] == scale[(r + intervals[i]) % 12]
  {
    ShiftOnIndex(scale, r, intervals[i]);
  }

  /** On the chromatic scale these are the notes the chord and scale
      derivations spell. */
  lemma NotesOnChromatic(r: nat, intervals: seq<int>)
    requires r < 12
    ensures NotesOn(ChromaticScale, ChromaticScale[r], intervals) == Spell(r, intervals).0
  {
    ChromaticScaleDistinct();
    forall i | 0 <= i < |intervals|
      ensures NotesOn(ChromaticScale, ChromaticScale[r], intervals)[i] == Spell(r, intervals).0[i]
    {
      NotesOnIndex(ChromaticScale, r, intervals, i);
    }
  }

  /** Every root of `scale`, in order, with every mode of `modes`, in order,
      and that mode's notes on the root. */
  method GenerateAllModesScales(scale: seq<string>, modes: seq<(string, seq<int>)>)
      returns (all: seq<(string, seq<(string, seq<string>)>)>)
    requires |scale| == 12
    ensures |all| == |scale|
    ensures forall r :: 0 <= r < |all| ==> all[r].0 == scale[r] && |all[r].1| == |modes|
    ensures forall r, m :: 0 <= r < |all| && 0 <= m < |modes| ==>
              all[r].1[m] == (modes[m].0, NotesOn(scale, scale[r], modes[m].1))
  {
    all := [];
    for r := 0 to |scale|
      invariant |all| == r
      invariant forall q :: 0 <= q < r ==> all[q].0 == scale[q] && |all[q].1| == |modes|
      invariant forall q, m :: 0 <= q < r && 0 <= m < |modes| ==>
                  all[q].1[m] == (modes[m].0, NotesOn(scale, scale[q], modes[m].1))
    {
      var note := scale[r];
      var modesOfNote: seq<(string, seq<string>)> := [];
      for m := 0 to |modes|
        invariant |modesOfNote| == m
        invariant forall k :: 0 <= k < m ==> modesOfNote[k] == (modes[k].0, NotesOn(scale, note, modes[k].1))
      {
        var scaleNotes := NotesOn(scale, note, modes[m].1);
        modesOfNote := modesOfNote + [(modes[m].0, scaleNotes)];
      }
      all := all + [(note, modesOfNote)];
    }
  }

  // ---------------------------------------------------------------------
  // find_scales_for_notes

  /** The label of a scale: root and mode separated by one space. */
  function ScaleName(root: string, mode: string): string
  {
    root + " " + mode
  }

  /** Python `all(note in notes for note in selected)`. */
  predicate ContainsAll(notes: seq<string>, selected: seq<string>)
  {
    forall i :: 0 <= i < |selected| ==> selected[i] in notes
  }

  /** The labels, in order, of the modes of one root that hold the selection. */
  function RootMatches(root: string, modes: seq<(string, seq<string>)>, selected: seq<string>): seq<string>
  {
    if |modes| == 0 then []
    else
      RootMatches(root, modes[..|modes| - 1], selected) +
      (if ContainsAll(modes[|modes| - 1].1, selected) then [ScaleName(root, modes[|modes| - 1].0)] else [])
  }

  /** The labels, ordered by root and then by mode, of every scale that holds
      the selection. */
  function Matching(all: seq<(string, seq<(string, seq<string>)>)>, selected: seq<string>): seq<string>
  {
    if |all| == 0 then []
    else Matching(all[..|all| - 1], selected) + RootMatches(all[|all| - 1].0, all[|all| - 1].1, selected)
  }

  method FindScalesForNotes(all: seq<(string, seq<(string, seq<string>)>)>, selected: seq<string>)
      returns (matching: seq<string>)
    ensures matching == Matching(all, selected)
  {
    matching := [];
    for r := 0 to |all|
      invariant matching == Matching(all[..r], selected)
    {
      var rootNote := all[r].0;
      var modes := all[r].1;
      var before := matching;
      for m := 0 to |modes|
        invariant matching == before + RootMatches(rootNote, modes[..m], selected)
      {
        assert modes[..m + 1][..m] == modes[..m];
        if ContainsAll(modes[m].1, selected) {
          matching := matching + [ScaleName(rootNote, modes[m].0)];
        }
      }
      assert modes[..|modes|] == modes;
      assert all[..r + 1][..r] == all[..r];
    }
    assert all[..|all|] == all;
  }

  /** A label is listed exactly when it names a mode of a root that holds
      every selected note. */
  lemma {:induction false} RootMatchesMembers(root: string, modes: seq<(string, seq<string>)>,
                                              selected: seq<string>, s: string)
    ensures s in RootMatches(root, modes, selected) <==>
            exists m :: 0 <= m < |modes| && ContainsAll(modes[m].1, selected) && s == ScaleName(root, modes[m].0)
  {
    if |modes| > 0 {
      var init := modes[..|modes| - 1];
      RootMatchesMembers(root, init, selected, s);
      if exists m :: 0 <= m < |modes| && ContainsAll(modes[m].1, selected) && s == ScaleName(root, modes[m].0) {
        var m :| 0 <= m < |modes| && ContainsAll(modes[m].1, selected) && s == ScaleName(root, modes[m].0);
        if m < |modes| - 1 {
          assert init[m] == modes[m];
        }
      }
      if exists m :: 0 <= m < |init| && ContainsAll(init[m].1, selected) && s == ScaleName(root, init[m].0) {
        var m :| 0 <= m < |init| && ContainsAll(init[m].1, selected) && s == ScaleName(root, init[m].0);
        assert modes[m] == init[m];
      }
    }
  }

  lemma {:induction false} MatchingMembers(all: seq<(string, seq<(string, seq<string>)>)>,
                                           selected: seq<string>, s: string)
    ensures s in Matching(all, selected) <==>
            exists r, m :: 0 <= r < |all| && 0 <= m < |all[r].1| &&
                           ContainsAll(all[r].1[m].1, selected) && s == ScaleName(all[r].0, all[r].1[m].0)
  {
    if |all| > 0 {
      var init := all[..|all| - 1];
      var last := all[|all| - 1];
      MatchingMembers(init, selected, s);
      RootMatchesMembers(last.0, last.1, selected, s);
      if exists r, m :: 0 <= r < |all| && 0 <= m < |all[r].1| &&
                        ContainsAll(all[r].1[m].1, selected) && s == ScaleName(all[r].0, all[r].1[m].0) {
        var r, m :| 0 <= r < |all| && 0 <= m < |all[r].1| &&
                    ContainsAll(all[r].1[m].1, selected) && s == ScaleName(all[r].0, all[r].1[m].0);
        if r < |all| - 1 {
          assert init[r] == all[r];
        }
      }
      if exists r, m :: 0 <= r < |init| && 0 <= m < |init[r].1| &&
                        ContainsAll(init[r].1[m].1, selected) && s == ScaleName(init[r].0, init[r].1[m].0) {
        var r, m :| 0 <= r < |init| && 0 <= m < |init[r].1| &&
                    ContainsAll(init[r].1[m].1, selected) && s == ScaleName(init[r].0, init[r].1[m].0);
        assert all[r] == init[r];
      }
    }
  }

  /** With nothing selected every mode of every root is listed. */
  lemma {:induction false} EmptySelectionRoot(root: string, modes: seq<(string, seq<string>)>)
    ensures |RootMatches(root, modes, [])| == |modes|
  {
    if |modes| > 0 {
      EmptySelectionRoot(root, modes[..|modes| - 1]);
      assert ContainsAll(modes[|modes| - 1].1, []);
    }
  }

  lemma {:induction false} EmptySelectionMatchesAll(all: seq<(string, seq<(string, seq<string>)>)>, k: nat)
    requires forall r :: 0 <= r < |all| ==> |all[r].1| == k
    ensures |Matching(all, [])| == |all| * k
  {
    if |all| > 0 {
      var n := |all| - 1;
      var init := all[..n];
      var last := all[n];
      forall r | 0 <= r < n ensures |init[r].1| == k {
        assert init[r] == all[r];
      }
      EmptySelectionMatchesAll(init, k);
      EmptySelectionRoot(last.0, last.1);
      assert Matching(all, []) == Matching(init, []) + RootMatches(last.0, last.1, []);
      MulSucc(n, k);
    }
  }

  lemma MulSucc(n: nat, k: nat)
    ensures (n + 1) * k == n * k + k
  {
  }

  /** The page's tables give 12 roots with 9 modes each, so an empty
      selection lists 108 scales. */
  lemma EmptySelectionLists108(all: seq<(string, seq<(string, seq<string>)>)>)
    requires |all| == |ChromaticScale| && forall r :: 0 <= r < |all| ==> |all[r].1| == |LocalModeIntervals|
    ensures |Matching(all, [])| == 108
  {
    EmptySelectionMatchesAll(all, 9);
  }

  /** Python `s.split(c, 1)` on a string that contains `c`: the text before
      its first occurrence and the text after it. */
  function SplitOnce(s: string, c: char): (string, string)
    requires c in s
  {
    (s[..IndexOf(s, c)], s[IndexOf(s, c) + 1..])
  }

  /** A label splits back into its root and mode when the root has no space. */
  lemma ScaleNameSplits(root: string, mode: string)
    requires ' ' !in root
    ensures ' ' in ScaleName(root, mode)
    ensures SplitOnce(ScaleName(root, mode), ' ') == (root, mode)
  {
    var s := ScaleName(root, mode);
    assert s[|root|] == ' ';
    var i := IndexOf(s, ' ');
    assert i == |root|;
    assert s[..i] == root;
    assert s[i + 1..] == mode;
  }

  /** No chromatic note name has a space, so every label of the page splits
      back. */
  lemma ChromaticNamesHaveNoSpace(k: nat)
    requires k < 12
    ensures ' ' !in ChromaticScale[k]
  {
  }

  /** Every label the search lists splits back into a root of the scale and
      a mode of the table, so the page can recompute that scale's notes. */
  lemma MatchedScaleResolves(scale: seq<string>, modes: seq<(string, seq<int>)>,
                             all: seq<(string, seq<(string, seq<string>)>)>, selected: seq<string>, s: string)
    requires forall r :: 0 <= r < |scale| ==> ' ' !in scale[r]
    requires |all| == |scale|
    requires forall r :: 0 <= r < |all| ==> all[r].0 == scale[r] && |all[r].1| == |modes|
    requires forall r, m :: 0 <= r < |all| && 0 <= m < |modes| ==> all[r].1[m].0 == modes[m].0
    requires s in Matching(all, selected)
    ensures ' ' in s
    ensures SplitOnce(s, ' ').0 in scale
    ensures Lookup(modes, SplitOnce(s, ' ').1).Some?
  {
    MatchingMembers(all, selected, s);
    var r, m :| 0 <= r < |all| && 0 <= m < |all[r].1| &&
                ContainsAll(all[r].1[m].1, selected) && s == ScaleName(all[r].0, all[r].1[m].0);
    ScaleNameSplits(scale[r], modes[m].0);
  }

  /** The history search: a scale matches the flattened history exactly when
      it holds every note of every saved selection. */
  lemma HistorySearchNeedsEveryNote(notes: seq<string>, history: seq<seq<string>>)
    ensures ContainsAll(notes, Flatten(history)) <==>
            forall h, k :: 0 <= h < |history| && 0 <= k < |history[h]| ==> history[h][k] in notes
  {
    var flat := Flatten(history);
    if ContainsAll(notes, flat) {
      forall h, k | 0 <= h < |history| && 0 <= k < |history[h]| ensures history[h][k] in notes {
        FlattenContains(history, history[h][k]);
        var i :| 0 <= i < |flat| && flat[i] == history[h][k];
      }
    }
    if forall h, k :: 0 <= h < |history| && 0 <= k < |history[h]| ==> history[h][k] in notes {
      forall i | 0 <= i < |flat| ensures flat[i] in notes {
        FlattenContains(history, flat[i]);
        var h :| 0 <= h < |history| && flat[i] in history[h];
        var k :| 0 <= k < |history[h]| && history[h][k] == flat[i];
      }
    }
  }

  // ---------------------------------------------------------------------
  // calculate_mode_notes

  /** The mode looked up: with `descending`, any melodic-minor name becomes
      "Melodic Minor Descending". */
  function EffectiveModeName(modeName: string, descending: bool): (r: string)
    ensures !descending ==> r == modeName
  {
    if descending && Contains(modeName, "Melodic Minor") then "Melodic Minor Descending" else modeName
  }

  /** The notes of a mode on a root and its raw offsets as the degrees; an
      unknown root or mode is a lookup failure in the source. */
  method CalculateModeNotes(scale: seq<string>, modes: seq<(string, seq<int>)>, rootNote: string,
                            modeName: string, descending: bool)
      returns (modeNotes: seq<string>, degrees: seq<int>)
    requires |scale| == 12 && rootNote in scale
    requires Lookup(modes, EffectiveModeName(modeName, descending)).Some?
    ensures modeNotes == NotesOn(scale, rootNote, Lookup(modes, EffectiveModeName(modeName, descending)).value)
    ensures degrees == Lookup(modes, EffectiveModeName(modeName, descending)).value
  {
    var rootIndex := IndexOf(scale, rootNote);
    var name := modeName;
    if descending && Contains(modeName, "Melodic Minor") {
      name := "Melodic Minor Descending";
    }
    var intervals := Lookup(modes, name).value;
    modeNotes, degrees := [], [];
    for i := 0 to |intervals|
      invariant |modeNotes| == i && degrees == intervals[..i]
      invariant forall k :: 0 <= k < i ==> modeNotes[k] == ShiftOn(scale, rootNote, intervals[k])
    {
      var noteIndex := (rootIndex + intervals[i]) % 12;
      var noteName := scale[noteIndex];
      modeNotes := modeNotes + [noteName];
      degrees := degrees + [intervals[i]];
      assert degrees == intervals[..i + 1];
    }
    assert intervals[..|intervals|] == intervals;
  }

  /** The page's mode table has no melodic-minor entry, so a descending
      melodic-minor request always fails its lookup. */
  lemma MelodicMinorNotLocal(modeName: string)
    requires Contains(modeName, "Melodic Minor")
    ensures Lookup(LocalModeIntervals, modeName).None?
    ensures Lookup(LocalModeIntervals, EffectiveModeName(modeName, true)).None?
  {
    LocalModesNotMelodic();
    assert Contains("Melodic Minor Descending", "Melodic Minor") by {
      assert OccursAt("Melodic Minor Descending", "Melodic Minor", 0);
      ContainsIff("Melodic Minor Descending", "Melodic Minor");
    }
  }

  lemma LocalModesNotMelodic()
    ensures forall i :: 0 <= i < |LocalModeIntervals| ==> !Contains(LocalModeIntervals[i].0, "Melodic Minor")
  {
    forall i | 0 <= i < |LocalModeIntervals|
      ensures !Contains(LocalModeIntervals[i].0, "Melodic Minor")
    {
      LocalModeNotMelodic(i);
    }
  }

  lemma LocalModeNotMelodic(i: nat)
    requires i < |LocalModeIntervals|
    ensures !Contains(LocalModeIntervals[i].0, "Melodic Minor")
  {
    if LocalModeIntervals[i].0 == "Aeolian" {
      AbsentSymbol(LocalModeIntervals[i].0, "Melodic Minor", 0);
    } else {
      AbsentSymbol(LocalModeIntervals[i].0, "Melodic Minor", 1);
    }
  }

  /** Every mode of the page's table has seven offsets, strictly ascending
      from 0 and below 12. */
  lemma LocalModesWellFormed()
    ensures |LocalModeIntervals| == 9
    ensures forall i :: 0 <= i < |LocalModeIntervals| ==>
              |LocalModeIntervals[i].1| == 7 && LocalModeIntervals[i].1[0] == 0 &&
              Ascending(LocalModeIntervals[i].1) && LocalModeIntervals[i].1[6] < 12
  {
  }

  // ---------------------------------------------------------------------
  // get_note_color

  /** A selected note takes the colour of its position, cycling through the
      five colours; any other note is grey. */
  function GetNoteColor(note: string, selectedNotes: seq<string>): string
  {
    if note in selectedNotes then SelectedNoteColors[IndexOf(selectedNotes, note) % |SelectedNoteColors|]
    else NonSelectedNoteColor
  }

  /** A note is grey exactly when it is not selected. */
  lemma GreyExactlyUnselected(note: string, selectedNotes: seq<string>)
    ensures GetNoteColor(note, selectedNotes) == NonSelectedNoteColor <==> note !in selectedNotes
  {
    if note in selectedNotes {
      var k := IndexOf(selectedNotes, note) % |SelectedNoteColors|;
      assert SelectedNoteColors[k] in SelectedNoteColors;
      SelectedColorsNotGrey();
    }
  }

  lemma SelectedColorsNotGrey()
    ensures NonSelectedNoteColor !in SelectedNoteColors
    ensures NoDuplicates(SelectedNoteColors)
  {
  }

  /** In a selection the page can hold, different notes get different
      colours: the colour is the note's own position. */
  lemma SelectedColorsDistinct(selectedNotes: seq<string>, i: nat, j: nat)
    requires |selectedNotes| <= MaxSelected && NoDuplicates(selectedNotes)
    requires i < j < |selectedNotes|
    ensures GetNoteColor(selectedNotes[i], selectedNotes) == SelectedNoteColors[i]
    ensures GetNoteColor(selectedNotes[i], selectedNotes) != GetNoteColor(selectedNotes[j], selectedNotes)
  {
    PositionColor(selectedNotes, i);
    PositionColor(selectedNotes, j);
    SelectedColorsNotGrey();
    assert SelectedNoteColors[i] != SelectedNoteColors[j];
  }

  /** The first five selected notes take the five colours in order. */
  lemma PositionColor(selectedNotes: seq<string>, i: nat)
    requires NoDuplicates(selectedNotes) && i < |selectedNotes| && i < |SelectedNoteColors|
    ensures GetNoteColor(selectedNotes[i], selectedNotes) == SelectedNoteColors[i]
  {
    IndexOfDistinct(selectedNotes, i);
    assert i % |SelectedNoteColors| == i;
  }

  // ---------------------------------------------------------------------
  // The note selection and its history (the page's session state)

  class NoteSelection {
    var selectedNotes: seq<string>
    var notesHistory: seq<seq<string>>

    /** At most five notes, none twice; every saved selection is one such. */
    predicate Valid()
      reads this
    {
      |selectedNotes| <= MaxSelected && NoDuplicates(selectedNotes) &&
      forall h :: 0 <= h < |notesHistory| ==> |notesHistory[h]| <= MaxSelected && NoDuplicates(notesHistory[h])
    }

    constructor()
      ensures Valid() && selectedNotes == [] && notesHistory == []
    {
      selectedNotes := [];
      notesHistory := [];
    }

    /** A fretboard button: a selected note is removed, an unselected one is
        added only while fewer than five are selected. */
    method Toggle(note: string)
      requires Valid()
      modifies this
      ensures Valid()
      ensures note in old(selectedNotes) ==> selectedNotes == RemoveFirst(old(selectedNotes), note)
      ensures note !in old(selectedNotes) && |old(selectedNotes)| < MaxSelected ==>
                selectedNotes == old(selectedNotes) + [note]
      ensures note !in old(selectedNotes) && |old(selectedNotes)| >= MaxSelected ==>
                selectedNotes == old(selectedNotes)
      ensures notesHistory == old(notesHistory)
    {
      if note in selectedNotes {
        RemoveFirstDistinct(selectedNotes, note);
        selectedNotes := RemoveFirst(selectedNotes, note);
      } else if |selectedNotes| < MaxSelected {
        selectedNotes := selectedNotes + [note];
      }
    }

    /** "Clear Selected Notes": a non-empty selection is saved at the end of
        the history and emptied; an empty one changes nothing. */
    method Clear()
      requires Valid()
      modifies this
      ensures Valid()
      ensures old(selectedNotes) != [] ==>
                notesHistory == old(notesHistory) + [old(selectedNotes)] && selectedNotes == []
      ensures old(selectedNotes) == [] ==>
                notesHistory == old(notesHistory) && selectedNotes == []
      ensures HistoryNotes() == old(HistoryNotes()) + old(selectedNotes)
    {
      FlattenAppend(notesHistory, selectedNotes);
      if selectedNotes != [] {
        notesHistory := notesHistory + [selectedNotes];
        selectedNotes := [];
      }
    }

    /** "Reset All": both lists emptied. */
    method Reset()
      modifies this
      ensures Valid() && selectedNotes == [] && notesHistory == []
    {
      selectedNotes := [];
      notesHistory := [];
    }

    /** Every note of the history, list by list, in order. */
    function HistoryNotes(): seq<string>
      reads this
    {
      Flatten(notesHistory)
    }

    /** A note is searched for in the history exactly when some saved
        selection held it. */
    lemma HistoryNotesMembers(note: string)
      ensures note in HistoryNotes() <==>
              exists h :: 0 <= h < |notesHistory| && note in notesHistory[h]
    {
      FlattenContains(notesHistory, note);
    }
  }
}
