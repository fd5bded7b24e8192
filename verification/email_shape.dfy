/** The email-shape test the teacher form applies: the regular expression
    `/\S+@\S+\.\S+/` used with `test`, which searches for a match anywhere in the
    string (the pattern is not anchored). */
module EmailShape {
  import opened Text

  /** `s[lo..hi]` is a non-empty run of non-whitespace characters: the atom `\S+`. */
  ghost predicate NonSpaceSpan(s: string, lo: int, hi: int) {
    0 <= lo < hi <= |s| && forall k :: lo <= k < hi ==> !IsSpace(s[k])
  }

  /** `s[a..e]` matches `\S+@\S+\.\S+`, with the `@` at `p` and the `.` at `q`. */
  ghost predicate MatchAt(s: string, a: int, p: int, q: int, e: int) {
    && 0 <= a < p < q < e <= |s|
    && NonSpaceSpan(s, a, p)
    && s[p] == '@'
    && NonSpaceSpan(s, p + 1, q)
    && s[q] == '.'
    && NonSpaceSpan(s, q + 1, e)
  }

  /** The regular expression finds a match somewhere in `s`. */
  ghost predicate Matches(s: string) {
    exists a, p, q, e :: MatchAt(s, a, p, q, e)
  }

  /** No match has its `.` before index `i`. */
  ghost predicate NoMatchBefore(s: string, i: int) {
    forall a, p, q, e :: MatchAt(s, a, p, q, e) ==> i <= q
  }

  /** What the scanner knows after reading `s[..i]`: the current run of non-whitespace
      characters starts at `runStart`, and `at` is the first `@` of that run that has a
      non-whitespace character before it (-1 if there is none yet). */
  ghost predicate ScanInv(s: string, i: int, runStart: int, at: int) {
    && 0 <= runStart <= i <= |s|
    && (forall k :: runStart <= k < i ==> !IsSpace(s[k]))
    && (0 < runStart ==> IsSpace(s[runStart - 1]))
    && (at < 0 ==> forall k :: runStart < k < i ==> s[k] != '@')
    && (0 <= at ==> runStart < at < i && s[at] == '@' && forall k :: runStart < k < at ==> s[k] != '@')
    && NoMatchBefore(s, i)
  }

  /** A single left-to-right pass over `s` from index `i`. */
  function Scan(s: string, i: nat, runStart: nat, at: int): bool
    requires runStart <= i <= |s|
    decreases |s| - i
  {
    if i == |s| then false
    else if IsSpace(s[i]) then Scan(s, i + 1, i + 1, -1)
    else if s[i] == '@' && runStart < i && at < 0 then Scan(s, i + 1, runStart, i)
    else if s[i] == '.' && 0 <= at && at + 1 < i && i + 1 < |s| && !IsSpace(s[i + 1]) then true
    else Scan(s, i + 1, runStart, at)
  }

  /** A match whose `.` is at `i` is one the scanner's state already accounts for: the
      match lies in the current run, after its first `@`. */
  lemma MatchEndingAtIsSeen(s: string, i: nat, runStart: nat, at: int, a: int, p: int, e: int)
    requires ScanInv(s, i, runStart, at) && MatchAt(s, a, p, i, e)
    ensures s[i] == '.' && 0 <= at && at + 1 < i && i + 1 < |s| && !IsSpace(s[i + 1])
  {
    assert forall k :: a <= k < i ==> !IsSpace(s[k]);
    assert runStart <= a;
    assert 0 <= at <= p;
  }

  /** A `.` at `i` ends no match unless the scanner accepts at `i`. */
  lemma NoMatchEndingAt(s: string, i: nat, runStart: nat, at: int)
    requires ScanInv(s, i, runStart, at) && i < |s|
    requires !(s[i] == '.' && 0 <= at && at + 1 < i && i + 1 < |s| && !IsSpace(s[i + 1]))
    ensures NoMatchBefore(s, i + 1)
  {
    forall a, p, q, e | MatchAt(s, a, p, q, e) ensures i + 1 <= q {
      if q == i {
        MatchEndingAtIsSeen(s, i, runStart, at, a, p, e);
      }
    }
  }

  /** The scanner accepts exactly the strings the regular expression matches. */
  lemma {:induction false} ScanCorrect(s: string, i: nat, runStart: nat, at: int)
    requires ScanInv(s, i, runStart, at)
    ensures Scan(s, i, runStart, at) <==> Matches(s)
    decreases |s| - i
  {
    if i == |s| {
    } else if IsSpace(s[i]) {
      ScanCorrect(s, i + 1, i + 1, -1);
    } else if s[i] == '@' && runStart < i && at < 0 {
      ScanCorrect(s, i + 1, runStart, i);
    } else if s[i] == '.' && 0 <= at && at + 1 < i && i + 1 < |s| && !IsSpace(s[i + 1]) {
      assert MatchAt(s, at - 1, at, i, i + 2);
    } else {
      NoMatchEndingAt(s, i, runStart, at);
      ScanCorrect(s, i + 1, runStart, at);
    }
  }

  /** `/\S+@\S+\.\S+/.test(s)`. */
  function HasEmailShape(s: string): bool {
    Scan(s, 0, 0, -1)
  }

  /** The executable test agrees with the regular expression on every string. */
  lemma HasEmailShapeMeaning(s: string)
    ensures HasEmailShape(s) <==> Matches(s)
  {
    ScanCorrect(s, 0, 0, -1);
  }

  /** The test is a search, not a whole-string match: text around a matching string
      never makes it fail. */
  lemma SurroundingTextKeepsMatch(s: string, before: string, after: string)
    requires Matches(s)
    ensures Matches(before + s + after)
  {
    var a, p, q, e :| MatchAt(s, a, p, q, e);
    var t := before + s + after;
    var n := |before|;
    assert forall k :: 0 <= k < |s| ==> t[n + k] == s[k];
    assert MatchAt(t, n + a, n + p, n + q, n + e);
  }
}
