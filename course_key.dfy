/**
 * The bucket key of a study record: its course name in lower case, so that
 * names differing only in letter case collect into one bucket.
 *
 * Only the 26 ASCII capital letters are mapped; JavaScript's full Unicode case
 * mapping is not modelled.
 */
module CourseKey {

  predicate IsUpper(c: char) { 'A' <= c <= 'Z' }

  predicate IsLower(c: char) { 'a' <= c <= 'z' }

  /** The lower-case form of one character. */
  function LowerChar(c: char): (r: char)
    ensures !IsUpper(r)
    ensures IsUpper(c) ==> IsLower(r) && r as int - 'a' as int == c as int - 'A' as int
    ensures !IsUpper(c) ==> r == c
  {
    if IsUpper(c) then (c as int - 'A' as int + 'a' as int) as char else c
  }

  /** A course name in lower case: the key of its bucket. */
  function ToLower(s: string): (r: string)
    ensures |r| == |s|
    ensures forall i :: 0 <= i < |s| ==> r[i] == LowerChar(s[i])
  {
    seq(|s|, i requires 0 <= i < |s| => LowerChar(s[i]))
  }

  /** Two characters are the same letter or the same character, ignoring case;
      stated by position in the alphabet rather than by conversion. */
  predicate SameIgnoringCase(c: char, d: char) {
    c == d || ((IsUpper(c) || IsLower(c)) && (IsUpper(d) || IsLower(d)) && AlphabetIndex(c) == AlphabetIndex(d))
  }

  function AlphabetIndex(c: char): int
    requires IsUpper(c) || IsLower(c)
  {
    if IsLower(c) then c as int - 'a' as int else c as int - 'A' as int
  }

  /** Two course names that differ at most in the case of their letters. */
  predicate EqualIgnoringCase(a: string, b: string) {
    |a| == |b| && forall i :: 0 <= i < |a| ==> SameIgnoringCase(a[i], b[i])
  }

  lemma {:induction false} LowerCharIffSameIgnoringCase(c: char, d: char)
    ensures LowerChar(c) == LowerChar(d) <==> SameIgnoringCase(c, d)
  {
  }

  /** Two records fall into the same bucket exactly when their course names are
      equal up to the case of their letters. */
  lemma {:induction false} SameKeyIffEqualIgnoringCase(a: string, b: string)
    ensures ToLower(a) == ToLower(b) <==> EqualIgnoringCase(a, b)
  {
    if ToLower(a) == ToLower(b) {
      forall i | 0 <= i < |a| ensures SameIgnoringCase(a[i], b[i]) {
        assert ToLower(a)[i] == ToLower(b)[i];
        LowerCharIffSameIgnoringCase(a[i], b[i]);
      }
    }
    if EqualIgnoringCase(a, b) {
      forall i | 0 <= i < |a| ensures ToLower(a)[i] == ToLower(b)[i] {
        LowerCharIffSameIgnoringCase(a[i], b[i]);
      }
    }
  }

  /** A key holds no capital letter, so lower-casing it again changes nothing. */
  lemma {:induction false} ToLowerIdempotent(s: string)
    ensures ToLower(ToLower(s)) == ToLower(s)
    ensures forall i :: 0 <= i < |s| ==> !IsUpper(ToLower(s)[i])
  {
    assert forall i :: 0 <= i < |s| ==> ToLower(ToLower(s))[i] == ToLower(s)[i];
  }
}
