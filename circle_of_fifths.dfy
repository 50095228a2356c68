/** The circle-of-fifths drawing: where the chord's root sits on the circle,
    the rotation that brings it to the top, and which circle entries carry
    a chord degree.

    The drawing routine works on the module-level circle table; here the
    table is the parameter `circle`, and its value is `CircleOfFifthsNotes`. */
module CircleOfFifths {
  import opened Util
  import opened NoteSets

  // ---------------------------------------------------------------------
  // Root position and rotation

  /** The root's exact entry, else the first entry one of whose
      '/'-spellings is the root; a root matching neither has no position. */
  function RootPosition(circle: seq<string>, root: string): (r: Option<nat>)
    ensures r.Some? ==> r.value < |circle| && (circle[r.value] == root || root in Split(circle[r.value], '/'))
    ensures r.None? <==> root !in circle && forall j :: 0 <= j < |circle| ==> root !in Split(circle[j], '/')
  {
    if root in circle then Some(IndexOf(circle, root)) else FirstSpelling(circle, root, 0)
  }

  /** The search of the drawing: `list.index`, and when that fails a scan
      that stops at the first entry spelling the root. */
  method ResolveRootIndex(circle: seq<string>, root: string) returns (rootIndex: nat)
    requires RootPosition(circle, root).Some?
    ensures rootIndex == RootPosition(circle, root).value
  {
    if root in circle {
      rootIndex := IndexOf(circle, root);
      return;
    }
    var i := 0;
    while i < |circle|
      invariant i <= |circle|
      invariant forall j :: 0 <= j < i ==> root !in Split(circle[j], '/')
    {
      if root in Split(circle[i], '/') {
        rootIndex := i;
        return;
      }
      i := i + 1;
    }
    assert false;
  }

  /** Python `(root_index * -30) % 360` (Python's `%` by a positive divisor
      is never negative, as Dafny's). */
  function Rotation(rootIndex: int): (r: int)
    ensures 0 <= r < 360 && r % 30 == 0
  {
    (rootIndex * -30) % 360
  }

  /** Entry i is drawn at `i * 30 + rotation` degrees past the top; the root
      is the one entry of the twelve drawn at the top. */
  lemma RootDrawnAtTop(rootIndex: nat, i: nat)
    requires rootIndex < 12 && i < 12
    ensures (i * 30 + Rotation(rootIndex)) % 360 == 0 <==> i == rootIndex
  {
    if rootIndex == 0 {
      assert Rotation(rootIndex) == 0;
    } else {
      assert Rotation(rootIndex) == 360 - 30 * rootIndex;
      assert i * 30 + Rotation(rootIndex) == 360 + 30 * (i - rootIndex);
    }
  }

  /** A chromatic root is found at its own entry: note j of the chromatic
      scale sits at position 5j mod 12. */
  lemma ChromaticRootPosition(j: nat)
    requires j < 12
    ensures RootPosition(CircleOfFifthsNotes, ChromaticScale[j]) == Some((5 * j) % 12)
  {
    CircleOfFifthsIsPermutation();
    IndexOfDistinct(CircleOfFifthsNotes, (5 * j) % 12);
  }

  /** A root written as the circle's first entry needs no rotation; the
      circle starts at C. */
  lemma FirstEntryUnrotated(circle: seq<string>)
    requires |circle| > 0
    ensures RootPosition(circle, circle[0]) == Some(0)
    ensures Rotation(RootPosition(circle, circle[0]).value) == 0
  {
  }

  lemma CircleStartsAtC()
    ensures CircleOfFifthsNotes[0] == "C"
  {
  }

  /** A name written only as the second half of a two-name entry is found
      at the first such entry, as "Bb" is found at "A#/Bb". */
  lemma SpelledRootPosition(circle: seq<string>, j: nat, sharp: string, flat: string)
    requires '/' !in sharp && '/' !in flat
    requires j < |circle| && circle[j] == sharp + "/" + flat
    requires flat !in circle
    requires forall q :: 0 <= q < j ==> flat !in Split(circle[q], '/')
    ensures RootPosition(circle, flat) == Some(j)
  {
    assert circle[j] == sharp + ['/'] + flat;
    SplitTwoNames(sharp, flat, '/');
    var r := FirstSpelling(circle, flat, 0);
    assert r.Some?;
  }

  // ---------------------------------------------------------------------
  // Matching chord notes to circle entries

  /** A chord note names a circle entry: it is one of its '/'-spellings or
      the whole entry. */
  predicate MatchesEntry(chordNote: string, circleNote: string)
  {
    chordNote in Split(circleNote, '/') || chordNote == circleNote
  }

  /** The first chord note, from position `i`, that names the entry. */
  function FirstMatch(circleNote: string, chordNotes: seq<string>, i: nat): (r: Option<nat>)
    ensures r.None? <==> forall j :: i <= j < |chordNotes| ==> !MatchesEntry(chordNotes[j], circleNote)
    ensures r.Some? ==> i <= r.value < |chordNotes| && MatchesEntry(chordNotes[r.value], circleNote) &&
                        forall j :: i <= j < r.value ==> !MatchesEntry(chordNotes[j], circleNote)
    decreases |chordNotes| - i
  {
    if i >= |chordNotes| then None
    else if MatchesEntry(chordNotes[i], circleNote) then Some(i)
    else FirstMatch(circleNote, chordNotes, i + 1)
  }

  /** The inner loop of the drawing: the first chord note naming the entry. */
  method MatchChordNote(circleNote: string, chordNotes: seq<string>) returns (matched: Option<string>)
    ensures FirstMatch(circleNote, chordNotes, 0).None? ==> matched.None?
    ensures FirstMatch(circleNote, chordNotes, 0).Some? ==>
              matched == Some(chordNotes[FirstMatch(circleNote, chordNotes, 0).value])
  {
    matched := None;
    for k := 0 to |chordNotes|
      invariant forall j :: 0 <= j < k ==> !MatchesEntry(chordNotes[j], circleNote)
    {
      var chordNote := chordNotes[k];
      if chordNote in Split(circleNote, '/') || chordNote == circleNote {
        matched := Some(chordNote);
        return;
      }
    }
  }

  /** The first matching note is also the first occurrence of its name, so
      `chord_notes.index(matched)` is the position the search stopped at. */
  lemma MatchedIndexIsFirst(circleNote: string, chordNotes: seq<string>)
    requires FirstMatch(circleNote, chordNotes, 0).Some?
    ensures IndexOf(chordNotes, chordNotes[FirstMatch(circleNote, chordNotes, 0).value]) ==
            FirstMatch(circleNote, chordNotes, 0).value
  {
  }

  /** What the drawing writes at an entry. */
  datatype CircleLabel = Plain(name: string) | WithDegree(name: string, degree: string)

  /** The degree of a matched note can be read. */
  predicate DegreeFound(circleNote: string, chordNotes: seq<string>, chordDegrees: seq<string>)
  {
    FirstMatch(circleNote, chordNotes, 0).Some? ==> FirstMatch(circleNote, chordNotes, 0).value < |chordDegrees|
  }

  /** An entry named by a (non-empty) chord note carries the degree at that
      note's position; any other entry is written plain. An empty name is
      false in Python's `if matched_note:`, so it leaves the entry plain. */
  function LabelOf(circleNote: string, chordNotes: seq<string>, chordDegrees: seq<string>): (r: CircleLabel)
    requires DegreeFound(circleNote, chordNotes, chordDegrees)
    ensures r.name == circleNote
  {
    var m := FirstMatch(circleNote, chordNotes, 0);
    if m.Some? && chordNotes[m.value] != "" then
      MatchedIndexIsFirst(circleNote, chordNotes);
      WithDegree(circleNote, chordDegrees[IndexOf(chordNotes, chordNotes[m.value])])
    else Plain(circleNote)
  }

  /** An entry carries a degree exactly when its first naming chord note is
      not the empty name. */
  lemma LabelMeaning(circleNote: string, chordNotes: seq<string>, chordDegrees: seq<string>)
    requires DegreeFound(circleNote, chordNotes, chordDegrees)
    ensures LabelOf(circleNote, chordNotes, chordDegrees).WithDegree? <==>
            exists j :: 0 <= j < |chordNotes| && chordNotes[j] != "" &&
                        MatchesEntry(chordNotes[j], circleNote) &&
                        forall k :: 0 <= k < j ==> !MatchesEntry(chordNotes[k], circleNote)
  {
    var m := FirstMatch(circleNote, chordNotes, 0);
    if exists j :: 0 <= j < |chordNotes| && chordNotes[j] != "" &&
                   MatchesEntry(chordNotes[j], circleNote) &&
                   forall k :: 0 <= k < j ==> !MatchesEntry(chordNotes[k], circleNote) {
      var j :| 0 <= j < |chordNotes| && chordNotes[j] != "" &&
               MatchesEntry(chordNotes[j], circleNote) &&
               forall k :: 0 <= k < j ==> !MatchesEntry(chordNotes[k], circleNote);
      assert m.Some?;
    }
  }

  /** An entry whose first naming chord note is at position j shows degree j. */
  lemma LabelShowsDegree(circleNote: string, chordNotes: seq<string>, chordDegrees: seq<string>, j: nat)
    requires j < |chordNotes| && j < |chordDegrees| && chordNotes[j] != ""
    requires MatchesEntry(chordNotes[j], circleNote)
    requires forall k :: 0 <= k < j ==> !MatchesEntry(chordNotes[k], circleNote)
    ensures DegreeFound(circleNote, chordNotes, chordDegrees)
    ensures LabelOf(circleNote, chordNotes, chordDegrees) == WithDegree(circleNote, chordDegrees[j])
  {
    var m := FirstMatch(circleNote, chordNotes, 0);
    assert m.Some?;
    MatchedIndexIsFirst(circleNote, chordNotes);
  }

  /** Every entry's label, in circle order (the drawing's outer loop). */
  method CircleLabels(circle: seq<string>, chordNotes: seq<string>, chordDegrees: seq<string>)
      returns (labels: seq<CircleLabel>)
    requires forall i :: 0 <= i < |circle| ==> DegreeFound(circle[i], chordNotes, chordDegrees)
    ensures |labels| == |circle|
    ensures forall i :: 0 <= i < |circle| ==> labels[i] == LabelOf(circle[i], chordNotes, chordDegrees)
  {
    labels := [];
    for i := 0 to |circle|
      invariant |labels| == i
      invariant forall q :: 0 <= q < i ==> labels[q] == LabelOf(circle[q], chordNotes, chordDegrees)
    {
      var circleNote := circle[i];
      assert DegreeFound(circleNote, chordNotes, chordDegrees);
      var matchedNote := MatchChordNote(circleNote, chordNotes);
      if matchedNote.Some? && matchedNote.value != "" {
        MatchedIndexIsFirst(circleNote, chordNotes);
        var noteDegree := chordDegrees[IndexOf(chordNotes, matchedNote.value)];
        assert WithDegree(circleNote, noteDegree) == LabelOf(circleNote, chordNotes, chordDegrees);
        labels := labels + [WithDegree(circleNote, noteDegree)];
      } else {
        assert Plain(circleNote) == LabelOf(circleNote, chordNotes, chordDegrees);
        labels := labels + [Plain(circleNote)];
      }
    }
  }

  /** The drawing: the rotation for the root and every entry's label. */
  method DrawCircleOfFifths(circle: seq<string>, root: string, chordNotes: seq<string>, chordDegrees: seq<string>)
      returns (rotation: int, labels: seq<CircleLabel>)
    requires RootPosition(circle, root).Some?
    requires forall i :: 0 <= i < |circle| ==> DegreeFound(circle[i], chordNotes, chordDegrees)
    ensures rotation == Rotation(RootPosition(circle, root).value)
    ensures |labels| == |circle|
    ensures forall i :: 0 <= i < |circle| ==> labels[i] == LabelOf(circle[i], chordNotes, chordDegrees)
  {
    var rootIndex := ResolveRootIndex(circle, root);
    rotation := ((rootIndex as int) * -30) % 360;
    labels := CircleLabels(circle, chordNotes, chordDegrees);
  }
}
