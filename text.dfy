/**
 * The string tests the asset rules use: ASCII lower-casing, substring,
 * prefix and suffix tests, and the suffix of a file name as `pathlib`
 * computes it.
 */
module Text {
  import opened Wrappers

  function LowerChar(c: char): char {
    if 'A' <= c <= 'Z' then (c as int + 32) as char else c
  }

  /** `str.lower()` on ASCII letters; every other character is kept. */
  function Lower(s: string): (r: string)
    ensures |r| == |s|
    ensures forall i | 0 <= i < |s| :: r[i] == LowerChar(s[i])
  {
    seq(|s|, i requires 0 <= i < |s| => LowerChar(s[i]))
  }

  lemma LowerIdempotent(s: string)
    ensures Lower(Lower(s)) == Lower(s)
  {
  }

  /** `t` occurs in `s` starting at position `i`. */
  predicate OccursAt(s: string, t: string, i: nat) {
    i + |t| <= |s| && s[i..i + |t|] == t
  }

  /** `t in s` on strings. */
  predicate Contains(s: string, t: string) {
    exists i: nat | i <= |s| :: OccursAt(s, t, i)
  }

  predicate StartsWith(s: string, t: string) {
    |t| <= |s| && s[..|t|] == t
  }

  predicate EndsWith(s: string, t: string) {
    |t| <= |s| && s[|s| - |t|..] == t
  }

  /** `str.rfind('.')`: the position of the last dot, if any. */
  function LastDot(s: string): (r: Option<nat>)
    ensures r.Some? ==> r.value < |s| && s[r.value] == '.' && forall j | r.value < j < |s| :: s[j] != '.'
    ensures r.None? ==> forall j | 0 <= j < |s| :: s[j] != '.'
  {
    if s == [] then None
    else if s[|s| - 1] == '.' then Some(|s| - 1)
    else LastDot(s[..|s| - 1])
  }

  /**
   * `PurePath(name).suffix` for a name with no separator: from the last dot
   * on, provided that dot neither starts nor ends the name; otherwise empty.
   */
  function Suffix(name: string): string {
    match LastDot(name)
    case Some(i) => if 0 < i < |name| - 1 then name[i..] else ""
    case None => ""
  }

  /** A name has suffix `.exe` exactly when it ends in `.exe` (case-sensitive) after at least one character. */
  lemma SuffixExe(name: string)
    ensures Suffix(name) == ".exe" <==> EndsWith(name, ".exe") && |name| > 4
  {
    var n := |name|;
    if EndsWith(name, ".exe") && n > 4 {
      assert name[n - 4] == '.' && name[n - 3] == 'e' && name[n - 2] == 'x' && name[n - 1] == 'e';
      var i := LastDot(name).value;
      assert i == n - 4;
    }
    if Suffix(name) == ".exe" {
      var i := LastDot(name).value;
      assert name[i..] == ".exe";
      assert n == i + 4;
    }
  }

  /** No name ends with both of two suffixes of equal length that differ. */
  lemma EndsWithBoth(s: string, t: string, u: string)
    requires |t| == |u| && t != u
    ensures !(EndsWith(s, t) && EndsWith(s, u))
  {
  }
}
