/**
 * Substring search and `String.prototype.split` with a non-empty string
 * separator, as the client uses them to pull the filename out of a
 * `Content-Disposition` header.
 */
module Text {
  import opened Wrappers

  /** `pat` occurs in `s` starting at index `i`. */
  predicate OccursAt(s: string, pat: string, i: int)
  {
    0 <= i && i + |pat| <= |s| && s[i..i + |pat|] == pat
  }

  predicate Contains(s: string, pat: string)
  {
    exists i :: 0 <= i <= |s| && OccursAt(s, pat, i)
  }

  /** `s.indexOf(pat)`: the first index where `pat` occurs, if any. */
  function IndexOf(s: string, pat: string): (r: Option<nat>)
    ensures r.Some? ==> OccursAt(s, pat, r.value)
    ensures r.Some? ==> forall j :: 0 <= j < r.value ==> !OccursAt(s, pat, j)
    ensures r.None? ==> forall j :: !OccursAt(s, pat, j)
    decreases |s|
  {
    if |s| < |pat| then None
    else if s[..|pat|] == pat then Some(0)
    else
      ShiftOccurrences(s, pat, 1);
      match IndexOf(s[1..], pat)
      case None => None
      case Some(k) => Some(k + 1)
  }

  /**
   * `s.split(sep)` for a non-empty separator: the pieces between successive
   * non-overlapping occurrences, scanning from the left.
   */
  function Split(s: string, sep: string): (r: seq<string>)
    requires |sep| > 0
    ensures |r| >= 1
    ensures |r| == 1 <==> !Contains(s, sep)
    ensures forall k :: 0 <= k < |r| ==> !Contains(r[k], sep)
    decreases |s|
  {
    match IndexOf(s, sep)
    case None => [s]
    case Some(i) =>
      PrefixWithoutOccurrence(s, sep, i);
      [s[..i]] + Split(s[i + |sep|..], sep)
  }

  /** The text before the first occurrence holds no occurrence. */
  lemma PrefixWithoutOccurrence(s: string, sep: string, i: nat)
    requires |sep| > 0 && i <= |s|
    requires forall k :: 0 <= k < i ==> !OccursAt(s, sep, k)
    ensures !Contains(s[..i], sep)
  {
    forall k | 0 <= k <= i
      ensures !OccursAt(s[..i], sep, k)
    {
      if k + |sep| <= i {
        assert s[..i][k..k + |sep|] == s[k..k + |sep|];
        assert !OccursAt(s, sep, k);
      }
    }
  }

  /** `pieces.join(sep)`: the pieces with `sep` between neighbours. */
  function Join(pieces: seq<string>, sep: string): (r: string)
    ensures |pieces| == 1 ==> r == pieces[0]
  {
    if |pieces| == 0 then ""
    else if |pieces| == 1 then pieces[0]
    else pieces[0] + sep + Join(pieces[1..], sep)
  }

  /** Joining a piece in front of at least one more puts `sep` between them. */
  lemma JoinCons(first: string, rest: seq<string>, sep: string)
    requires |rest| >= 1
    ensures Join([first] + rest, sep) == first + sep + Join(rest, sep)
  {
    assert ([first] + rest)[1..] == rest;
  }

  /** Joining the pieces of a split with the same separator gives the text back. */
  lemma {:induction false} SplitJoin(s: string, sep: string)
    requires |sep| > 0
    ensures Join(Split(s, sep), sep) == s
    decreases |s|
  {
    var found := IndexOf(s, sep);
    if found.Some? {
      var i := found.value;
      var rest := s[i + |sep|..];
      SplitJoin(rest, sep);
      SplitAt(s, sep, i);
      AroundOccurrence(s, sep, i);
      JoinCons(s[..i], Split(rest, sep), sep);
    }
  }

  /** Where the first occurrence is at `i`, `split` cuts there. */
  lemma SplitAt(s: string, sep: string, i: nat)
    requires |sep| > 0 && IndexOf(s, sep) == Some(i)
    ensures Split(s, sep) == [s[..i]] + Split(s[i + |sep|..], sep)
  {
  }

  /** The text is the two sides around an occurrence of `sep`. */
  lemma AroundOccurrence(s: string, sep: string, i: nat)
    requires OccursAt(s, sep, i)
    ensures s == s[..i] + sep + s[i + |sep|..]
  {
    assert s == s[..i] + s[i..i + |sep|] + s[i + |sep|..];
  }

  /** The first occurrence is the one `indexOf` reports. */
  lemma IndexOfFirst(s: string, pat: string, i: nat)
    requires OccursAt(s, pat, i) && forall k :: 0 <= k < i ==> !OccursAt(s, pat, k)
    ensures IndexOf(s, pat) == Some(i)
  {
    var r := IndexOf(s, pat);
    assert r.Some? ==> !(r.value < i) && !(r.value > i);
  }

  /** Without an occurrence `indexOf` reports none. */
  lemma IndexOfAbsent(s: string, pat: string)
    requires forall k :: 0 <= k <= |s| ==> !OccursAt(s, pat, k)
    ensures IndexOf(s, pat).None?
  {
  }

  /** The first piece of `split` is everything before the first occurrence, or the whole text. */
  lemma FirstPiece(s: string, sep: string, j: nat)
    requires |sep| > 0 && j <= |s|
    requires j == |s| || OccursAt(s, sep, j)
    requires forall k :: 0 <= k < j ==> !OccursAt(s, sep, k)
    ensures Split(s, sep)[0] == s[..j]
  {
    if j < |s| {
      IndexOfFirst(s, sep, j);
    } else {
      IndexOfAbsent(s, sep);
    }
  }

  /**
   * The second piece of `s.split(sep)` is the text between the first
   * occurrence of `sep` and the next one at or after its end (or the end of
   * `s`).
   */
  lemma SecondPiece(s: string, sep: string, i: nat, j: nat)
    requires |sep| > 0
    requires OccursAt(s, sep, i) && forall k :: 0 <= k < i ==> !OccursAt(s, sep, k)
    requires i + |sep| <= j <= |s|
    requires j == |s| || OccursAt(s, sep, j)
    requires forall k :: i + |sep| <= k < j ==> !OccursAt(s, sep, k)
    ensures |Split(s, sep)| >= 2 && Split(s, sep)[1] == s[i + |sep|..j]
  {
    IndexOfFirst(s, sep, i);
    var d := i + |sep|;
    var rest := s[d..];
    assert Split(s, sep) == [s[..i]] + Split(rest, sep);
    ShiftOccurrences(s, sep, d);
    var m := j - d;
    assert forall k :: 0 <= k < m ==> !OccursAt(rest, sep, k) by {
      forall k | 0 <= k < m
        ensures !OccursAt(rest, sep, k)
      {
        assert !OccursAt(s, sep, k + d);
      }
    }
    assert m == |rest| || OccursAt(rest, sep, m) by {
      if j < |s| {
        assert OccursAt(s, sep, m + d);
      }
    }
    FirstPiece(rest, sep, m);
    assert rest[..m] == s[d..j];
  }

  /** Without an occurrence of `sep`, `split` yields the whole text as one piece. */
  lemma SplitWithoutSeparator(s: string, sep: string)
    requires |sep| > 0 && !Contains(s, sep)
    ensures Split(s, sep) == [s]
  {
    IndexOfAbsent(s, sep);
  }

  /** Occurrences in a suffix are the occurrences in the whole text, shifted. */
  lemma ShiftOccurrences(s: string, pat: string, d: nat)
    requires d <= |s|
    ensures forall k {:trigger OccursAt(s, pat, k)} :: d <= k ==> (OccursAt(s, pat, k) <==> OccursAt(s[d..], pat, k - d))
  {
    forall k | d <= k
      ensures OccursAt(s, pat, k) <==> OccursAt(s[d..], pat, k - d)
    {
      if k + |pat| <= |s| {
        assert s[d..][k - d..k - d + |pat|] == s[k..k + |pat|];
      }
    }
  }
}
