/** Small string and sequence helpers shared by the music-theory modules.
    Each one models a Python built-in the source relies on: `x in s` on
    strings, `str.split`, `str.join`, `str.replace`, `list.index`, a
    dictionary lookup over an insertion-ordered table, and flattening a
    list of lists. */
module Util {

  datatype Option<T> = None | Some(value: T)

  /** `sub` starts at position `i` of `s` (the specification of a match). */
  predicate OccursAt<T(==)>(s: seq<T>, sub: seq<T>, i: nat)
  {
    i + |sub| <= |s| && s[i..i + |sub|] == sub
  }

  /** Character-by-character test that `sub[k..]` sits at `s[i + k..]`. */
  predicate MatchAt<T(==)>(s: seq<T>, sub: seq<T>, i: nat, k: nat)
    decreases |sub| - k
  {
    k >= |sub| || (i + k < |s| && s[i + k] == sub[k] && MatchAt(s, sub, i, k + 1))
  }

  lemma {:induction false} MatchAtIff<T>(s: seq<T>, sub: seq<T>, i: nat, k: nat)
    requires k <= |sub| && i + |sub| <= |s|
    ensures MatchAt(s, sub, i, k) <==> forall m :: k <= m < |sub| ==> s[i + m] == sub[m]
    decreases |sub| - k
  {
    if k < |sub| {
      MatchAtIff(s, sub, i, k + 1);
      if forall m :: k <= m < |sub| ==> s[i + m] == sub[m] {
        assert s[i + k] == sub[k];
        assert MatchAt(s, sub, i, k + 1);
        assert MatchAt(s, sub, i, k);
      }
      if MatchAt(s, sub, i, k) {
        assert MatchAt(s, sub, i, k + 1);
        forall m | k <= m < |sub| ensures s[i + m] == sub[m] {
          if m > k {
            assert k + 1 <= m;
          }
        }
      }
    }
  }

  lemma MatchAtOccurs<T>(s: seq<T>, sub: seq<T>, i: nat)
    requires i + |sub| <= |s|
    ensures MatchAt(s, sub, i, 0) <==> OccursAt(s, sub, i)
  {
    MatchAtIff(s, sub, i, 0);
    if forall m :: 0 <= m < |sub| ==> s[i + m] == sub[m] {
      assert s[i..i + |sub|] == sub;
    }
  }

  /** Python `sub in s[i:]`, scanning the start positions from `i` upwards. */
  predicate ContainsFrom<T(==)>(s: seq<T>, sub: seq<T>, i: nat)
    decreases |s| - i
  {
    if i + |sub| > |s| then false
    else MatchAt(s, sub, i, 0) || ContainsFrom(s, sub, i + 1)
  }

  /** Python `sub in s` on strings. */
  predicate Contains<T(==)>(s: seq<T>, sub: seq<T>)
  {
    ContainsFrom(s, sub, 0)
  }

  lemma {:induction false} ContainsFromIff<T>(s: seq<T>, sub: seq<T>, i: nat)
    ensures ContainsFrom(s, sub, i) <==> exists j: nat :: i <= j && OccursAt(s, sub, j)
    decreases |s| - i
  {
    if i + |sub| <= |s| {
      ContainsFromIff(s, sub, i + 1);
      MatchAtOccurs(s, sub, i);
      if j: nat :| i <= j && OccursAt(s, sub, j) {
        if j > i {
          assert i + 1 <= j;
        }
      }
    } else {
      if j: nat :| i <= j && OccursAt(s, sub, j) {
        assert false;
      }
    }
  }

  /** The scan agrees with "`sub` occurs at some position of `s`". */
  lemma ContainsIff<T>(s: seq<T>, sub: seq<T>)
    ensures Contains(s, sub) <==> exists j: nat :: OccursAt(s, sub, j)
  {
    ContainsFromIff(s, sub, 0);
  }

  /** A pattern with an element the sequence lacks does not occur in it. */
  lemma AbsentSymbol<T>(s: seq<T>, pat: seq<T>, q: nat)
    requires q < |pat| && pat[q] !in s
    ensures !Contains(s, pat)
  {
    ContainsIff(s, pat);
    forall j: nat | j + |pat| <= |s| ensures !OccursAt(s, pat, j) {
      assert s[j..j + |pat|][q] == s[j + q];
    }
  }

  /** Python `list.index(x)`: the position of the first occurrence of `x`. */
  function IndexOf<T(==)>(s: seq<T>, x: T): (r: nat)
    requires x in s
    ensures r < |s| && s[r] == x
    ensures forall j :: 0 <= j < r ==> s[j] != x
  {
    if s[0] == x then 0 else 1 + IndexOf(s[1..], x)
  }

  /** The element at a valid index is a member. */
  lemma ElementIn<T>(s: seq<T>, k: int)
    requires 0 <= k < |s|
    ensures s[k] in s
  {
  }

  /** In a sequence without repeats every element sits at its own index. */
  lemma {:induction false} IndexOfDistinct<T>(s: seq<T>, r: nat)
    requires r < |s| && NoDuplicates(s)
    ensures IndexOf(s, s[r]) == r
  {
    if r > 0 {
      assert s[1..][r - 1] == s[r];
      assert NoDuplicates(s[1..]);
      IndexOfDistinct(s[1..], r - 1);
    }
  }

  /** The pieces of `s[i..]` between occurrences of `sep`. */
  function SplitFrom(s: string, sep: char, i: nat): (r: seq<string>)
    ensures |r| >= 1
    ensures forall k :: 0 <= k < |r| ==> sep !in r[k]
    decreases |s| - i
  {
    if i >= |s| then [""]
    else
      var rest := SplitFrom(s, sep, i + 1);
      if s[i] == sep then [""] + rest
      else [[s[i]] + rest[0]] + rest[1..]
  }

  /** Python `s.split(sep)` for a one-character separator: the pieces between
      separators, always at least one (`"".split("-") == [""]`). */
  function Split(s: string, sep: char): (r: seq<string>)
    ensures |r| >= 1
    ensures forall k :: 0 <= k < |r| ==> sep !in r[k]
  {
    SplitFrom(s, sep, 0)
  }

  /** Scanning inside a suffix does not see what precedes it. */
  lemma {:induction false} SplitFromShift(p: string, b: string, sep: char, k: nat)
    requires k <= |b|
    ensures SplitFrom(p + b, sep, |p| + k) == SplitFrom(b, sep, k)
    decreases |b| - k
  {
    if k < |b| {
      SplitFromShift(p, b, sep, k + 1);
      assert (p + b)[|p| + k] == b[k];
    }
  }

  lemma {:induction false} SplitFromAppend(a: string, b: string, sep: char, i: nat)
    requires i <= |a|
    ensures SplitFrom(a + [sep] + b, sep, i) == SplitFrom(a, sep, i) + Split(b, sep)
    decreases |a| - i
  {
    var s := a + [sep] + b;
    if i == |a| {
      assert s[|a|] == sep;
      assert s == (a + [sep]) + b;
      SplitFromShift(a + [sep], b, sep, 0);
      assert SplitFrom(s, sep, |a| + 1) == Split(b, sep);
      assert SplitFrom(s, sep, i) == [""] + SplitFrom(s, sep, i + 1);
    } else {
      SplitFromAppend(a, b, sep, i + 1);
      assert s[i] == a[i];
      var head := SplitFrom(a, sep, i + 1);
      var tail := Split(b, sep);
      var rest := SplitFrom(s, sep, i + 1);
      assert rest == head + tail;
      if a[i] == sep {
        assert SplitFrom(s, sep, i) == [""] + rest;
        assert SplitFrom(a, sep, i) == [""] + head;
      } else {
        assert SplitFrom(s, sep, i) == [[a[i]] + rest[0]] + rest[1..];
        assert SplitFrom(a, sep, i) == [[a[i]] + head[0]] + head[1..];
        ExtendFirstPiece(a[i], head, tail);
      }
    }
  }

  /** Growing the first piece of `head + tail` grows the first piece of `head`. */
  lemma ExtendFirstPiece(c: char, head: seq<string>, tail: seq<string>)
    requires |head| >= 1
    ensures [[c] + (head + tail)[0]] + (head + tail)[1..] == ([[c] + head[0]] + head[1..]) + tail
  {
    assert (head + tail)[1..] == head[1..] + tail;
  }

  /** Splitting at a separator splits each side on its own. */
  lemma SplitAppend(a: string, b: string, sep: char)
    ensures Split(a + [sep] + b, sep) == Split(a, sep) + Split(b, sep)
  {
    SplitFromAppend(a, b, sep, 0);
  }

  /** A string without the separator is one piece. */
  lemma {:induction false} SplitFromNone(s: string, sep: char, i: nat)
    requires i <= |s| && sep !in s
    ensures SplitFrom(s, sep, i) == [s[i..]]
    decreases |s| - i
  {
    if i < |s| {
      SplitFromNone(s, sep, i + 1);
      assert s[i] in s;
      assert s[i..] == [s[i]] + s[i + 1..];
      var rest := SplitFrom(s, sep, i + 1);
      assert SplitFrom(s, sep, i) == [[s[i]] + rest[0]] + rest[1..];
    } else {
      assert s[i..] == "";
    }
  }

  lemma SplitNone(s: string, sep: char)
    requires sep !in s
    ensures Split(s, sep) == [s]
  {
    SplitFromNone(s, sep, 0);
  }

  /** A two-name spelling "a/b" splits into its two names. */
  lemma SplitTwoNames(a: string, b: string, sep: char)
    requires sep !in a && sep !in b
    ensures Split(a + [sep] + b, sep) == [a, b]
  {
    SplitAppend(a, b, sep);
    SplitNone(a, sep);
    SplitNone(b, sep);
  }

  /** The first position from `i` whose '/'-separated spellings include `note`. */
  function FirstSpelling(names: seq<string>, note: string, i: nat): (r: Option<nat>)
    ensures r.None? <==> forall j :: i <= j < |names| ==> note !in Split(names[j], '/')
    ensures r.Some? ==> i <= r.value < |names| && note in Split(names[r.value], '/') &&
                        forall j :: i <= j < r.value ==> note !in Split(names[j], '/')
    decreases |names| - i
  {
    if i >= |names| then None
    else if note in Split(names[i], '/') then Some(i)
    else FirstSpelling(names, note, i + 1)
  }

  /** Python `s[::-1]`. */
  function Reversed<T>(s: seq<T>): (r: seq<T>)
    ensures |r| == |s|
    ensures forall i :: 0 <= i < |s| ==> r[i] == s[|s| - 1 - i]
  {
    if |s| == 0 then [] else Reversed(s[1..]) + [s[0]]
  }

  /** Python `sep.join(parts)`. */
  function Join(parts: seq<string>, sep: string): string
  {
    if |parts| == 0 then ""
    else if |parts| == 1 then parts[0]
    else parts[0] + sep + Join(parts[1..], sep)
  }

  lemma {:induction false} JoinSplitFrom(s: string, sep: char, i: nat)
    requires i <= |s|
    ensures Join(SplitFrom(s, sep, i), [sep]) == s[i..]
    decreases |s| - i
  {
    if i < |s| {
      JoinSplitFrom(s, sep, i + 1);
      var rest := SplitFrom(s, sep, i + 1);
      assert s[i..] == [s[i]] + s[i + 1..];
      if s[i] != sep {
        var r := [[s[i]] + rest[0]] + rest[1..];
        if |rest| > 1 {
          assert rest == [rest[0]] + rest[1..];
          assert Join(rest, [sep]) == rest[0] + [sep] + Join(rest[1..], [sep]);
          assert r[1..] == rest[1..];
        }
      }
    }
  }

  /** Splitting and joining again with the same separator gives back the input. */
  lemma JoinSplit(s: string, sep: char)
    ensures Join(Split(s, sep), [sep]) == s
  {
    JoinSplitFrom(s, sep, 0);
  }

  /** `s[i..]` with every non-overlapping occurrence of `pat`, scanning from the
      left, replaced by `rep`. */
  function ReplaceFrom(s: string, pat: string, rep: string, i: nat): string
    requires |pat| > 0 && i <= |s|
    decreases |s| - i
  {
    if i + |pat| > |s| then s[i..]
    else if MatchAt(s, pat, i, 0) then rep + ReplaceFrom(s, pat, rep, i + |pat|)
    else [s[i]] + ReplaceFrom(s, pat, rep, i + 1)
  }

  /** Python `s.replace(pat, rep)`. */
  function ReplaceAll(s: string, pat: string, rep: string): string
    requires |pat| > 0
  {
    ReplaceFrom(s, pat, rep, 0)
  }

  lemma {:induction false} ReplaceAbsentFrom(s: string, pat: string, rep: string, i: nat)
    requires |pat| > 0 && i <= |s| && !ContainsFrom(s, pat, i)
    ensures ReplaceFrom(s, pat, rep, i) == s[i..]
    decreases |s| - i
  {
    if i + |pat| <= |s| {
      ReplaceAbsentFrom(s, pat, rep, i + 1);
      assert s[i..] == [s[i]] + s[i + 1..];
    }
  }

  /** Replacing a string that does not occur changes nothing. */
  lemma ReplaceAbsent(s: string, pat: string, rep: string)
    requires |pat| > 0 && !Contains(s, pat)
    ensures ReplaceAll(s, pat, rep) == s
  {
    ReplaceAbsentFrom(s, pat, rep, 0);
  }

  /** Positions whose character differs from the pattern's first character are
      copied unchanged. */
  lemma {:induction false} ReplaceSkip(s: string, pat: string, rep: string, i: nat, j: nat)
    requires |pat| > 0 && i <= j <= |s|
    requires forall m :: i <= m < j ==> s[m] != pat[0]
    ensures ReplaceFrom(s, pat, rep, i) == s[i..j] + ReplaceFrom(s, pat, rep, j)
    decreases j - i
  {
    if i < j {
      if i + |pat| > |s| {
        calc {
          ReplaceFrom(s, pat, rep, i);
          s[i..];
          { assert s[i..] == s[i..j] + s[j..]; }
          s[i..j] + s[j..];
          s[i..j] + ReplaceFrom(s, pat, rep, j);
        }
      } else {
        assert !MatchAt(s, pat, i, 0) by { assert s[i + 0] != pat[0]; }
        calc {
          ReplaceFrom(s, pat, rep, i);
          [s[i]] + ReplaceFrom(s, pat, rep, i + 1);
          { ReplaceSkip(s, pat, rep, i + 1, j); }
          [s[i]] + (s[i + 1..j] + ReplaceFrom(s, pat, rep, j));
          { assert s[i..j] == [s[i]] + s[i + 1..j]; }
          s[i..j] + ReplaceFrom(s, pat, rep, j);
        }
      }
    }
  }

  /** An occurrence of the pattern at `i` is replaced and the scan resumes after it. */
  lemma ReplaceHit(s: string, pat: string, rep: string, i: nat)
    requires |pat| > 0 && OccursAt(s, pat, i)
    ensures ReplaceFrom(s, pat, rep, i) == rep + ReplaceFrom(s, pat, rep, i + |pat|)
  {
    MatchAtOccurs(s, pat, i);
  }

  /** Positions where the pattern does not occur are copied unchanged. */
  lemma {:induction false} ReplaceNoMatch(s: string, pat: string, rep: string, i: nat, j: nat)
    requires |pat| > 0 && i <= j <= |s|
    requires forall m :: i <= m < j ==> !OccursAt(s, pat, m)
    ensures ReplaceFrom(s, pat, rep, i) == s[i..j] + ReplaceFrom(s, pat, rep, j)
    decreases j - i
  {
    if i < j {
      if i + |pat| > |s| {
        assert s[i..] == s[i..j] + s[j..];
      } else {
        MatchAtOccurs(s, pat, i);
        ReplaceNoMatch(s, pat, rep, i + 1, j);
        assert s[i..j] == [s[i]] + s[i + 1..j];
      }
    }
  }

  /** With a non-empty replacement, only an empty rest replaces to nothing. */
  lemma ReplaceFromEmpty(s: string, pat: string, rep: string, i: nat)
    requires |pat| > 0 && |rep| > 0 && i <= |s| && ReplaceFrom(s, pat, rep, i) == []
    ensures i == |s|
  {
  }

  /** The scan from `i` finds a first occurrence of the pattern. */
  lemma {:induction false} FirstOccurrenceFrom<T>(s: seq<T>, pat: seq<T>, i: nat) returns (j: nat)
    requires ContainsFrom(s, pat, i)
    requires forall m :: 0 <= m < i ==> !OccursAt(s, pat, m)
    ensures OccursAt(s, pat, j) && forall m :: 0 <= m < j ==> !OccursAt(s, pat, m)
    decreases |s| - i
  {
    MatchAtOccurs(s, pat, i);
    if MatchAt(s, pat, i, 0) {
      j := i;
    } else {
      j := FirstOccurrenceFrom(s, pat, i + 1);
    }
  }

  /** A contained pattern has a first occurrence. */
  lemma FirstOccurrence<T>(s: seq<T>, pat: seq<T>) returns (j: nat)
    requires Contains(s, pat)
    ensures OccursAt(s, pat, j) && forall m :: 0 <= m < j ==> !OccursAt(s, pat, m)
  {
    j := FirstOccurrenceFrom(s, pat, 0);
  }

  /** The first occurrence of the pattern is the first one replaced: the text
      before it is copied, then comes the replacement and the rest's scan. */
  lemma FirstReplacement(s: string, pat: string, rep: string) returns (j: nat)
    requires |pat| > 0 && Contains(s, pat)
    ensures OccursAt(s, pat, j)
    ensures ReplaceAll(s, pat, rep) == s[..j] + rep + ReplaceFrom(s, pat, rep, j + |pat|)
  {
    j := FirstOccurrence(s, pat);
    ReplaceNoMatch(s, pat, rep, 0, j);
    ReplaceHit(s, pat, rep, j);
  }

  /** Deleting a character that occurs once removes just that position. */
  lemma RemoveOnlyOccurrence(s: string, c: char, i: nat)
    requires i < |s| && s[i] == c
    requires forall m :: 0 <= m < |s| && m != i ==> s[m] != c
    ensures ReplaceAll(s, [c], "") == s[..i] + s[i + 1..]
  {
    ReplaceSkip(s, [c], "", 0, i);
    assert OccursAt(s, [c], i);
    ReplaceHit(s, [c], "", i);
    ReplaceSkip(s, [c], "", i + 1, |s|);
  }


  lemma {:induction false} RemoveCharFrom(s: string, c: char, i: nat)
    requires i <= |s|
    ensures c !in ReplaceFrom(s, [c], "", i)
    decreases |s| - i
  {
    if i + 1 <= |s| {
      if MatchAt(s, [c], i, 0) {
        RemoveCharFrom(s, c, i + 1);
      } else {
        RemoveCharFrom(s, c, i + 1);
        assert MatchAt(s, [c], i, 1);
      }
    }
  }

  /** Removing a one-character string removes every copy of that character. */
  lemma RemoveCharLeavesNone(s: string, c: char)
    ensures c !in ReplaceAll(s, [c], "")
  {
    RemoveCharFrom(s, c, 0);
  }

  lemma {:induction false} ReplaceCharFrom(s: string, a: char, b: char, i: nat)
    requires i <= |s|
    ensures |ReplaceFrom(s, [a], [b], i)| == |s| - i
    ensures forall m :: 0 <= m < |s| - i ==>
              ReplaceFrom(s, [a], [b], i)[m] == (if s[i + m] == a then b else s[i + m])
    decreases |s| - i
  {
    if i < |s| {
      ReplaceCharFrom(s, a, b, i + 1);
      MatchAtOccurs(s, [a], i);
      assert OccursAt(s, [a], i) <==> s[i] == a by {
        assert s[i..i + 1] == [s[i]];
      }
      var head := if s[i] == a then [b] else [s[i]];
      var rest := ReplaceFrom(s, [a], [b], i + 1);
      assert ReplaceFrom(s, [a], [b], i) == head + rest;
      forall m | 0 <= m < |s| - i
        ensures (head + rest)[m] == (if s[i + m] == a then b else s[i + m])
      {
        if m > 0 {
          assert (head + rest)[m] == rest[m - 1];
          assert s[i + m] == s[(i + 1) + (m - 1)];
        }
      }
    }
  }

  /** Replacing one character by another maps each position on its own. */
  lemma ReplaceChar(s: string, a: char, b: char)
    ensures |ReplaceAll(s, [a], [b])| == |s|
    ensures forall m :: 0 <= m < |s| ==> ReplaceAll(s, [a], [b])[m] == (if s[m] == a then b else s[m])
  {
    ReplaceCharFrom(s, a, b, 0);
  }

  /** Lookup by key in an insertion-ordered table (a Python dict): the value of
      the first entry whose key is `k`. */
  function Lookup<K(==), V>(t: seq<(K, V)>, k: K): (r: Option<V>)
    ensures r.None? <==> forall i :: 0 <= i < |t| ==> t[i].0 != k
    ensures r.Some? ==> exists i :: 0 <= i < |t| && t[i] == (k, r.value) &&
                                    forall j :: 0 <= j < i ==> t[j].0 != k
  {
    if |t| == 0 then None
    else if t[0].0 == k then Some(t[0].1)
    else
      Lookup(t[1..], k)
  }

  /** The key of entry `i` does not occur earlier in the table. */
  predicate FreshKey<K(==), V>(t: seq<(K, V)>, i: nat)
    requires i < |t|
  {
    forall j :: 0 <= j < i ==> t[j].0 != t[i].0
  }

  /** Looking up the key of an entry whose key is fresh finds that entry. */
  lemma {:induction false} LookupAt<K, V>(t: seq<(K, V)>, i: nat)
    requires i < |t| && FreshKey(t, i)
    ensures Lookup(t, t[i].0) == Some(t[i].1)
  {
    if i > 0 {
      assert t[0].0 != t[i].0;
      assert t[1..][i - 1] == t[i];
      LookupAt(t[1..], i - 1);
    }
  }

  /** The keys of a table, in order. */
  function Keys<K, V>(t: seq<(K, V)>): (r: seq<K>)
    ensures |r| == |t| && forall i :: 0 <= i < |t| ==> r[i] == t[i].0
  {
    if |t| == 0 then [] else [t[0].0] + Keys(t[1..])
  }

  /** With distinct keys, a key sits at one position only. */
  lemma KeyPositionUnique<K, V>(t: seq<(K, V)>, i: nat, j: nat)
    requires NoDuplicates(Keys(t)) && i < |t| && j < |t| && t[i].0 == t[j].0
    ensures i == j
  {
    assert Keys(t)[i] == Keys(t)[j];
  }

  /** A table whose every key is fresh has distinct keys. */
  lemma KeysDistinct<K, V>(t: seq<(K, V)>)
    requires forall i :: 0 <= i < |t| ==> FreshKey(t, i)
    ensures NoDuplicates(Keys(t))
  {
    var ks := Keys(t);
    forall i, j | 0 <= i < j < |ks| ensures ks[i] != ks[j] {
      assert FreshKey(t, j);
    }
  }

  /** Python `[x for xs in xss for x in xs]`. */
  function Flatten<T>(xss: seq<seq<T>>): seq<T>
  {
    if |xss| == 0 then [] else xss[0] + Flatten(xss[1..])
  }

  /** An element is in the flattened list exactly when it is in one of the lists. */
  lemma {:induction false} FlattenContains<T>(xss: seq<seq<T>>, x: T)
    ensures x in Flatten(xss) <==> exists i :: 0 <= i < |xss| && x in xss[i]
  {
    if |xss| > 0 {
      FlattenContains(xss[1..], x);
      if x in Flatten(xss[1..]) {
        var i :| 0 <= i < |xss[1..]| && x in xss[1..][i];
        assert x in xss[i + 1];
      }
      if i :| 1 <= i < |xss| && x in xss[i] {
        assert x in xss[1..][i - 1];
      }
    }
  }

  /** No element occurs twice. */
  predicate NoDuplicates<T(==)>(s: seq<T>)
  {
    forall i, j :: 0 <= i < j < |s| ==> s[i] != s[j]
  }

  /** Python `list.remove(x)`: drop the first occurrence of `x`. */
  function RemoveFirst<T(==)>(s: seq<T>, x: T): (r: seq<T>)
    requires x in s
    ensures |r| == |s| - 1
    ensures r == s[..IndexOf(s, x)] + s[IndexOf(s, x) + 1..]
  {
    if s[0] == x then s[1..] else [s[0]] + RemoveFirst(s[1..], x)
  }

  /** Removing the only occurrence of `x` keeps every other element, and
      nothing repeats afterwards. */
  lemma RemoveFirstDistinct<T>(s: seq<T>, x: T)
    requires x in s && NoDuplicates(s)
    ensures NoDuplicates(RemoveFirst(s, x))
    ensures x !in RemoveFirst(s, x)
    ensures forall y :: y != x ==> (y in RemoveFirst(s, x) <==> y in s)
  {
    RemoveFirstNoDuplicates(s, x);
    RemoveFirstDropsX(s, x);
    RemoveFirstKeepsOthers(s, x);
  }

  lemma RemoveFirstNoDuplicates<T>(s: seq<T>, x: T)
    requires x in s && NoDuplicates(s)
    ensures NoDuplicates(RemoveFirst(s, x))
  {
    var i := IndexOf(s, x);
    var r := RemoveFirst(s, x);
    forall a, b | 0 <= a < b < |r| ensures r[a] != r[b] {
      var a' := if a < i then a else a + 1;
      var b' := if b < i then b else b + 1;
      assert r[a] == s[a'] && r[b] == s[b'];
    }
  }

  lemma RemoveFirstDropsX<T>(s: seq<T>, x: T)
    requires x in s && NoDuplicates(s)
    ensures x !in RemoveFirst(s, x)
  {
    var i := IndexOf(s, x);
    var r := RemoveFirst(s, x);
    forall k | 0 <= k < |r| ensures r[k] != x {
      var k' := if k < i then k else k + 1;
      assert r[k] == s[k'];
    }
  }

  lemma RemoveFirstKeepsOthers<T>(s: seq<T>, x: T)
    requires x in s
    ensures forall y :: y != x ==> (y in RemoveFirst(s, x) <==> y in s)
  {
    var i := IndexOf(s, x);
    var r := RemoveFirst(s, x);
    forall y | y != x ensures y in r <==> y in s {
      if y in s {
        var k :| 0 <= k < |s| && s[k] == y;
        assert k != i;
        if k < i {
          assert r[k] == y;
        } else {
          assert r[k - 1] == y;
        }
      }
      if y in r {
        var k :| 0 <= k < |r| && r[k] == y;
        if k < i {
          assert s[k] == y;
        } else {
          assert s[k + 1] == y;
        }
      }
    }
  }

  /** Flattening after appending one list appends its elements. */
  lemma {:induction false} FlattenAppend<T>(xss: seq<seq<T>>, ys: seq<T>)
    ensures Flatten(xss + [ys]) == Flatten(xss) + ys
  {
    if |xss| == 0 {
      assert [] + [ys] == [ys];
      assert Flatten([ys]) == ys + Flatten([ys][1..]);
    } else {
      assert (xss + [ys])[1..] == xss[1..] + [ys];
      FlattenAppend(xss[1..], ys);
    }
  }
}

