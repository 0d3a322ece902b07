/**
 * The e-mail check of the upload form: the regular expression
 * `^\S+@\S+\.\S+$` (no flags), where `\S` is any character outside
 * ECMAScript's `\s` class (its WhiteSpace and LineTerminator characters).
 */
module EmailPattern {
  import opened Wrappers

  /** ECMAScript `\s`: TAB, LF, VT, FF, CR, SPACE, NBSP, U+1680, U+2000..U+200A,
      LS, PS, U+202F, U+205F, U+3000 and the byte-order mark U+FEFF. */
  predicate IsWhitespace(c: char) {
    var n := c as int;
    (0x09 <= n <= 0x0D) || n == 0x20 || n == 0xA0 || n == 0x1680 ||
    (0x2000 <= n <= 0x200A) || n == 0x2028 || n == 0x2029 || n == 0x202F ||
    n == 0x205F || n == 0x3000 || n == 0xFEFF
  }

  predicate NoWhitespace(s: string) {
    forall k :: 0 <= k < |s| ==> !IsWhitespace(s[k])
  }

  /** The language of `\S+`. */
  predicate NonSpacePlus(t: string) {
    |t| >= 1 && NoWhitespace(t)
  }

  /** The language of the anchored pattern: `s` splits as
      `\S+` `@` `\S+` `.` `\S+`, the `@` at index i and the `.` at index j. */
  ghost predicate MatchesEmailRegex(s: string) {
    exists i, j :: 0 <= i < j < |s| && s[i] == '@' && s[j] == '.' &&
      NonSpacePlus(s[..i]) && NonSpacePlus(s[i + 1..j]) && NonSpacePlus(s[j + 1..])
  }

  /** The pattern, stated on positions: no whitespace anywhere, an `@` at some
      index i >= 1 and a `.` at some index j with i + 2 <= j <= |s| - 2. */
  ghost predicate EmailShape(s: string) {
    NoWhitespace(s) &&
    exists i, j :: 1 <= i && i + 2 <= j <= |s| - 2 && s[i] == '@' && s[j] == '.'
  }

  lemma EmailRegexCharacterisation(s: string)
    ensures MatchesEmailRegex(s) <==> EmailShape(s)
  {
    if MatchesEmailRegex(s) {
      RegexImpliesShape(s);
    }
    if EmailShape(s) {
      ShapeImpliesRegex(s);
    }
  }

  lemma RegexImpliesShape(s: string)
    requires MatchesEmailRegex(s)
    ensures EmailShape(s)
  {
    var i, j :| 0 <= i < j < |s| && s[i] == '@' && s[j] == '.' &&
      NonSpacePlus(s[..i]) && NonSpacePlus(s[i + 1..j]) && NonSpacePlus(s[j + 1..]);
    forall k | 0 <= k < |s| ensures !IsWhitespace(s[k]) {
      if k < i {
        SliceCharClean(s, 0, i, k);
      } else if i < k < j {
        SliceCharClean(s, i + 1, j, k);
      } else if j < k {
        SliceCharClean(s, j + 1, |s|, k);
        assert s[j + 1..] == s[j + 1..|s|];
      }
    }
    assert 1 <= i && i + 2 <= j <= |s| - 2;
  }

  /** A character inside a whitespace-free slice is not whitespace. */
  lemma SliceCharClean(s: string, lo: nat, hi: nat, k: nat)
    requires lo <= k < hi <= |s| && NoWhitespace(s[lo..hi])
    ensures !IsWhitespace(s[k])
  {
    assert s[k] == s[lo..hi][k - lo];
  }

  lemma ShapeImpliesRegex(s: string)
    requires EmailShape(s)
    ensures MatchesEmailRegex(s)
  {
    var i, j :| 1 <= i && i + 2 <= j <= |s| - 2 && s[i] == '@' && s[j] == '.';
    NoWhitespaceSlice(s, 0, i);
    NoWhitespaceSlice(s, i + 1, j);
    NoWhitespaceSlice(s, j + 1, |s|);
    assert s[j + 1..] == s[j + 1..|s|];
  }

  lemma NoWhitespaceSlice(s: string, lo: nat, hi: nat)
    requires lo <= hi <= |s| && NoWhitespace(s)
    ensures NoWhitespace(s[lo..hi])
  {
    forall k | 0 <= k < hi - lo ensures !IsWhitespace(s[lo..hi][k]) {
      assert s[lo..hi][k] == s[lo + k];
    }
  }

  /** The first index k >= from with s[k] == c. */
  function FirstFrom(s: string, c: char, from: nat): (r: Option<nat>)
    ensures r.Some? ==> from <= r.value < |s| && s[r.value] == c
    ensures forall k :: from <= k < |s| && s[k] == c ==> r.Some? && r.value <= k
    decreases |s| - from
  {
    if from >= |s| then None
    else if s[from] == c then Some(from)
    else FirstFrom(s, c, from + 1)
  }

  /** The last index k < upto (and inside s) with s[k] == c. */
  function LastBefore(s: string, c: char, upto: nat): (r: Option<nat>)
    ensures r.Some? ==> r.value < upto && r.value < |s| && s[r.value] == c
    ensures forall k :: 0 <= k < upto && k < |s| && s[k] == c ==> r.Some? && k <= r.value
    decreases upto
  {
    if upto == 0 then None
    else if upto - 1 < |s| && s[upto - 1] == c then Some(upto - 1)
    else LastBefore(s, c, upto - 1)
  }

  /** Decides the pattern: the earliest `@` that has something before it must lie
      at least two places before the latest `.` that has something after it. */
  function IsValidEmail(s: string): (r: bool)
    ensures r <==> MatchesEmailRegex(s)
  {
    var at := FirstFrom(s, '@', 1);
    var dot := LastBefore(s, '.', if |s| >= 1 then |s| - 1 else 0);
    EmailRegexCharacterisation(s);
    if NoWhitespace(s) && at.Some? && dot.Some? && at.value + 2 <= dot.value then
      assert EmailShape(s) by {
        assert 1 <= at.value && at.value + 2 <= dot.value <= |s| - 2;
      }
      true
    else
      false
  }
}
