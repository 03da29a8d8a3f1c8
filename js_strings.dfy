/** `String.prototype.replace` called with a string pattern and an empty
    replacement: only the first occurrence of the pattern, wherever it
    stands, is removed. */
module JsStrings {

  /** `pat` occurs in `s` starting at index `i`. */
  predicate OccursAt(s: string, pat: string, i: int) {
    0 <= i && i + |pat| <= |s| && s[i..i + |pat|] == pat
  }

  /** `i` is the index of the leftmost occurrence of `pat` in `s`. */
  predicate FirstOccurrence(s: string, pat: string, i: int) {
    OccursAt(s, pat, i) && forall j :: 0 <= j < i ==> !OccursAt(s, pat, j)
  }

  predicate Absent(s: string, pat: string) {
    forall i :: 0 <= i <= |s| ==> !OccursAt(s, pat, i)
  }

  /** `s.replace(pat, '')`: the leftmost occurrence of `pat` is cut out; a
      string without `pat` comes back unchanged. */
  function RemoveFirst(s: string, pat: string): (r: string)
    ensures forall i :: FirstOccurrence(s, pat, i) ==> r == s[..i] + s[i + |pat|..]
    ensures Absent(s, pat) ==> r == s
    decreases |s|
  {
    if |s| < |pat| then s
    else if s[..|pat|] == pat then
      assert OccursAt(s, pat, 0);
      s[|pat|..]
    else
      var rest := RemoveFirst(s[1..], pat);
      KeepHead(s, pat, rest);
      [s[0]] + rest
  }

  /** The step of RemoveFirst that keeps the first character: whatever the
      tail's removal satisfies carries over to the whole string. */
  lemma KeepHead(s: string, pat: string, rest: string)
    requires |s| > 0 && !OccursAt(s, pat, 0)
    requires forall i :: FirstOccurrence(s[1..], pat, i) ==> rest == s[1..][..i] + s[1..][i + |pat|..]
    requires Absent(s[1..], pat) ==> rest == s[1..]
    ensures forall i :: FirstOccurrence(s, pat, i) ==> [s[0]] + rest == s[..i] + s[i + |pat|..]
    ensures Absent(s, pat) ==> [s[0]] + rest == s
  {
    forall i | FirstOccurrence(s, pat, i) ensures [s[0]] + rest == s[..i] + s[i + |pat|..] {
      FirstOccurrenceShifts(s, pat, i);
      assert rest == s[1..][..i - 1] + s[1..][i - 1 + |pat|..];
      assert [s[0]] + s[1..][..i - 1] == s[..i];
      assert s[1..][i - 1 + |pat|..] == s[i + |pat|..];
    }
    if Absent(s, pat) {
      forall j | 0 <= j <= |s| - 1 ensures !OccursAt(s[1..], pat, j) {
        ShiftOccurrence(s, pat, j + 1);
      }
      assert [s[0]] + s[1..] == s;
    }
  }

  /** An occurrence in `s` after index 0 is an occurrence in `s[1..]`,
      shifted by one. */
  lemma ShiftOccurrence(s: string, pat: string, i: int)
    requires |s| > 0 && 1 <= i
    ensures OccursAt(s, pat, i) <==> OccursAt(s[1..], pat, i - 1)
  {
  }

  /** Either the pattern is absent or it has a leftmost occurrence, and that
      occurrence is unique: together with the contract of RemoveFirst this
      determines the result for every input. */
  lemma {:induction false} FirstOccurrenceExists(s: string, pat: string)
    ensures Absent(s, pat) || exists i :: FirstOccurrence(s, pat, i)
    ensures forall i, j :: FirstOccurrence(s, pat, i) && FirstOccurrence(s, pat, j) ==> i == j
    decreases |s|
  {
    if OccursAt(s, pat, 0) {
      assert FirstOccurrence(s, pat, 0);
    } else if |s| == 0 {
      forall i | 0 <= i <= |s| ensures !OccursAt(s, pat, i) {
        assert i == 0;
      }
    } else {
      FirstOccurrenceExists(s[1..], pat);
      if Absent(s[1..], pat) {
        forall i | 1 <= i <= |s| ensures !OccursAt(s, pat, i) {
          ShiftOccurrence(s, pat, i);
        }
      } else {
        var k :| FirstOccurrence(s[1..], pat, k);
        ShiftOccurrence(s, pat, k + 1);
        forall j | 1 <= j < k + 1 ensures !OccursAt(s, pat, j) {
          ShiftOccurrence(s, pat, j);
        }
        assert FirstOccurrence(s, pat, k + 1);
      }
      forall i, j | FirstOccurrence(s, pat, i) && FirstOccurrence(s, pat, j) ensures i == j {
        FirstOccurrenceShifts(s, pat, i);
        FirstOccurrenceShifts(s, pat, j);
      }
    }
  }

  lemma FirstOccurrenceShifts(s: string, pat: string, i: int)
    requires |s| > 0 && !OccursAt(s, pat, 0) && FirstOccurrence(s, pat, i)
    ensures i >= 1 && FirstOccurrence(s[1..], pat, i - 1)
  {
    ShiftOccurrence(s, pat, i);
    forall j | 0 <= j < i - 1 ensures !OccursAt(s[1..], pat, j) {
      ShiftOccurrence(s, pat, j + 1);
    }
  }
}
