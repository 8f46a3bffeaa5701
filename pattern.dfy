/**
 The compiled field-name pattern `[_a-zA-Z0-9]+` (src/schema/mod.rs:129).

 The pattern is one ASCII character class under `+`, with no anchors. This
 module gives its meaning twice: as a language (a span of the haystack matches
 when it is non-empty and every character in it is in the class) and as a
 search that scans left to right for the first class character and extends the
 match greedily, which is how a leftmost-first engine reports a match of this
 pattern. `Find` is proved to return the leftmost-longest span of the language.
 */
module FieldNamePattern {

  datatype Option<+T> = None | Some(value: T)

  /** A half-open span `[start, end)` of the haystack, as a reported match. */
  datatype Span = Span(start: nat, end: nat)

  /** Membership in the character class `[_a-zA-Z0-9]`: ASCII ranges only. */
  predicate IsFieldChar(c: char) {
    c == '_' || ('a' <= c <= 'z') || ('A' <= c <= 'Z') || ('0' <= c <= '9')
  }

  /** `s[i..j]` is a word of `[_a-zA-Z0-9]+`: non-empty, all characters in the class. */
  ghost predicate MatchesAt(s: string, i: int, j: int) {
    0 <= i < j <= |s| && forall k :: i <= k < j ==> IsFieldChar(s[k])
  }

  /** The unanchored pattern matches somewhere in `s`. */
  ghost predicate HasMatch(s: string) {
    exists i, j :: MatchesAt(s, i, j)
  }

  /** A match of `+` over one class is just a class character: the two views agree. */
  lemma HasMatchIffSomeFieldChar(s: string)
    ensures HasMatch(s) <==> exists k :: 0 <= k < |s| && IsFieldChar(s[k])
  {
    if HasMatch(s) {
      var i, j :| MatchesAt(s, i, j);
      assert IsFieldChar(s[i]);
    }
    if k :| 0 <= k < |s| && IsFieldChar(s[k]) {
      assert MatchesAt(s, k, k + 1);
    }
  }

  /** Greedy extension of a match: the end of the run of class characters starting at `i`. */
  function RunEnd(s: string, i: nat): (r: nat)
    requires i <= |s|
    ensures i <= r <= |s|
    ensures forall k :: i <= k < r ==> IsFieldChar(s[k])
    ensures r == |s| || !IsFieldChar(s[r])
    decreases |s| - i
  {
    if i < |s| && IsFieldChar(s[i]) then RunEnd(s, i + 1) else i
  }

  /** Search for the pattern in `s[i..]`: first class character, then the greedy run. */
  function FindFrom(s: string, i: nat): (r: Option<Span>)
    requires i <= |s|
    ensures r.Some? ==> i <= r.value.start && MatchesAt(s, r.value.start, r.value.end)
    ensures r.Some? ==> r.value.end == |s| || !IsFieldChar(s[r.value.end])
    ensures r.Some? ==> forall k :: i <= k < r.value.start ==> !IsFieldChar(s[k])
    ensures r.None? ==> forall k :: i <= k < |s| ==> !IsFieldChar(s[k])
    decreases |s| - i
  {
    if i == |s| then None
    else if IsFieldChar(s[i]) then Some(Span(i, RunEnd(s, i + 1)))
    else FindFrom(s, i + 1)
  }

  /**
   The match the search reports for the whole haystack: there is one exactly
   when the pattern matches somewhere, and it is the leftmost, and among those
   starting there the longest, span of the language.
   */
  function Find(s: string): (r: Option<Span>)
    ensures r.Some? <==> HasMatch(s)
    ensures r.Some? ==> MatchesAt(s, r.value.start, r.value.end)
    ensures r.Some? ==> forall i, j :: MatchesAt(s, i, j) ==>
                          r.value.start <= i && (r.value.start == i ==> j <= r.value.end)
  {
    var r := FindFrom(s, 0);
    HasMatchIffSomeFieldChar(s);
    assert r.Some? ==> forall i, j :: MatchesAt(s, i, j) ==>
                         r.value.start <= i && (r.value.start == i ==> j <= r.value.end) by {
      if r.Some? {
        var st, en := r.value.start, r.value.end;
        forall i, j | MatchesAt(s, i, j)
          ensures st <= i && (st == i ==> j <= en)
        {
          assert IsFieldChar(s[i]);
        }
      }
    }
    r
  }
}
