/**
 * The part of JavaScript's string library the inspect-link template relies on:
 * `String.prototype.replace` with a string (not a regular expression) pattern,
 * which replaces only the FIRST occurrence of the pattern and expands the `$`
 * patterns of the replacement string (ECMAScript's StringIndexOf and
 * GetSubstitution abstract operations).  JavaScript strings are sequences of
 * UTF-16 code units; here a `char` is a Unicode scalar value, so indices count
 * code points and lone surrogates are not represented. The placeholders and ids
 * are ASCII, where the two counts agree and `replace` gives the same string.
 */
module JsStrings {
  import opened Wrappers

  /** `pat` occurs in `s` starting at index `i`. */
  predicate OccursAt(s: string, pat: string, i: int) {
    0 <= i && i + |pat| <= |s| && s[i..i + |pat|] == pat
  }

  /** StringIndexOf(s, pat, from): the first index at or after `from` where `pat` occurs. */
  function IndexOf(s: string, pat: string, from: nat): (r: Option<nat>)
    ensures r.Some? ==> from <= r.value && OccursAt(s, pat, r.value)
    ensures r.Some? ==> forall j :: from <= j < r.value ==> !OccursAt(s, pat, j)
    ensures r.None? ==> forall j :: from <= j ==> !OccursAt(s, pat, j)
    decreases |s| - from
  {
    if from + |pat| > |s| then None
    else if s[from..from + |pat|] == pat then Some(from)
    else IndexOf(s, pat, from + 1)
  }

  /**
   * GetSubstitution for a string pattern (no capture groups, no named groups):
   * `$$` gives `$`, `$&` the matched text, `` $` `` the text before the match,
   * `$'` the text after it; every other `$` stands for itself. A replacement
   * without `$` is therefore inserted verbatim.
   */
  function Substitution(rep: string, matched: string, before: string, after: string): (r: string)
    ensures '$' !in rep ==> r == rep
  {
    if |rep| == 0 then ""
    else if rep[0] == '$' && |rep| >= 2 && rep[1] in {'$', '&', '`', '\''} then
      var expansion :=
        if rep[1] == '$' then "$"
        else if rep[1] == '&' then matched
        else if rep[1] == '`' then before
        else after;
      expansion + Substitution(rep[2..], matched, before, after)
    else
      assert '$' !in rep ==> '$' !in rep[1..] by {
        if '$' in rep[1..] {
          var k :| 0 <= k < |rep[1..]| && rep[1..][k] == '$';
          assert rep[k + 1] == '$';
        }
      }
      [rep[0]] + Substitution(rep[1..], matched, before, after)
  }

  /**
   * `s.replace(pat, rep)` where `pat` is a string: unchanged when `pat` does
   * not occur; otherwise the text before the first occurrence and the text
   * after it are both kept, and only that occurrence is rewritten.
   */
  function ReplaceFirst(s: string, pat: string, rep: string): (r: string)
    ensures IndexOf(s, pat, 0).None? ==> r == s
    ensures IndexOf(s, pat, 0).Some? ==>
      var i := IndexOf(s, pat, 0).value;
      var tail := s[i + |pat|..];
      i + |tail| <= |r| && r[..i] == s[..i] && r[|r| - |tail|..] == tail
  {
    match IndexOf(s, pat, 0)
    case None => s
    case Some(i) =>
      s[..i] + Substitution(rep, pat, s[..i], s[i + |pat|..]) + s[i + |pat|..]
  }

  /** ToString of an optional string: JavaScript renders `undefined` as the text "undefined". */
  function ToJsString(v: Option<string>): (r: string)
    ensures v.Some? ==> r == v.value
    ensures v.None? ==> r == "undefined"
  {
    v.GetOr("undefined")
  }

  /** When the pattern does not occur, `replace` returns the string unchanged. */
  lemma ReplaceFirstAbsent(s: string, pat: string, rep: string)
    requires forall j :: !OccursAt(s, pat, j)
    ensures ReplaceFirst(s, pat, rep) == s
  {
  }

  /** The pattern occurs at `i` and nowhere before, so `i` is the first occurrence. */
  lemma FirstOccurrence(s: string, pat: string, i: nat)
    requires OccursAt(s, pat, i)
    requires forall j :: 0 <= j < i ==> !OccursAt(s, pat, j)
    ensures IndexOf(s, pat, 0) == Some(i)
  {
  }

  /** A single mismatching character rules out an occurrence at `j`. */
  lemma MismatchAt(s: string, pat: string, j: int, k: int)
    requires 0 <= j && 0 <= k < |pat| && j + k < |s| && s[j + k] != pat[k]
    ensures !OccursAt(s, pat, j)
  {
    if j + |pat| <= |s| {
      assert s[j..j + |pat|][k] == s[j + k];
    }
  }

  /**
   * Only the first occurrence is replaced, and a replacement without `$` is
   * inserted as is: everything before and after that occurrence is kept,
   * including later occurrences of the pattern.
   */
  lemma ReplaceFirstAt(s: string, pat: string, rep: string, i: nat)
    requires '$' !in rep
    requires IndexOf(s, pat, 0) == Some(i)
    ensures ReplaceFirst(s, pat, rep) == s[..i] + rep + s[i + |pat|..]
  {
    match IndexOf(s, pat, 0)
    case Some(k) =>
      assert k == i;
  }

  /** A pattern cannot occur where its first character never appears. */
  lemma NoOccurrenceWithoutFirstChar(s: string, pat: string)
    requires |pat| > 0 && pat[0] !in s
    ensures forall j :: !OccursAt(s, pat, j)
  {
    forall j ensures !OccursAt(s, pat, j) {
      if 0 <= j && j + |pat| <= |s| {
        assert s[j..j + |pat|][0] == s[j];
      }
    }
  }

  /**
   * Replacing in `prefix + pat + rest`, where `pat` does not start anywhere
   * inside `prefix`, puts `rep` exactly where `pat` was and keeps `rest`
   * verbatim, later occurrences of `pat` included.
   */
  lemma ReplaceFirstAfterPrefix(prefix: string, pat: string, rest: string, rep: string)
    requires forall j :: 0 <= j < |prefix| ==> !OccursAt(prefix + pat + rest, pat, j)
    requires '$' !in rep
    ensures ReplaceFirst(prefix + pat + rest, pat, rep) == prefix + rep + rest
  {
    var s, i := prefix + pat + rest, |prefix|;
    assert s[i..i + |pat|] == pat;
    FirstOccurrence(s, pat, i);
    ReplaceFirstAt(s, pat, rep, i);
    assert s[..i] == prefix;
    assert s[i + |pat|..] == rest;
  }
}
