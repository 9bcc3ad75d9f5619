/**
 * The e-mail format check `/^\S+@\S+\.\S+$/` of register, login and forgot,
 * as a predicate on strings, and an executable test proved equivalent to it.
 */
module EmailFormat {
  import opened Wrappers

  /** The characters of the JavaScript class `\s`: ASCII white space, line and paragraph separators, Unicode spaces and the byte-order mark. */
  predicate IsSpace(c: char) {
    || c == ' ' || c == '\t' || c == '\n' || c == '\r' || c == '\U{000B}' || c == '\U{000C}'
    || c == '\U{00A0}' || c == '\U{1680}' || ('\U{2000}' <= c <= '\U{200A}')
    || c == '\U{2028}' || c == '\U{2029}' || c == '\U{202F}' || c == '\U{205F}'
    || c == '\U{3000}' || c == '\U{FEFF}'
  }

  /**
   * What the regular expression accepts: no white space anywhere, an `@`
   * after at least one character, then a `.` after at least one more
   * character, then at least one character.
   */
  ghost predicate MatchesEmailPattern(s: string) {
    && (forall k :: 0 <= k < |s| ==> !IsSpace(s[k]))
    && exists i, j :: 1 <= i && i + 2 <= j && j + 1 < |s| && s[i] == '@' && s[j] == '.'
  }

  /** The first `@` at or after position `from`. */
  function FindAt(s: string, from: nat): (r: Option<nat>)
    ensures r.Some? ==> from <= r.value < |s| && s[r.value] == '@'
    ensures r.Some? ==> forall k :: from <= k < r.value ==> s[k] != '@'
    ensures r.None? ==> forall k :: from <= k < |s| ==> s[k] != '@'
    decreases |s| - from
  {
    if from >= |s| then None
    else if s[from] == '@' then Some(from)
    else FindAt(s, from + 1)
  }

  /** The last `.` before position `before`. */
  function FindLastDot(s: string, before: nat): (r: Option<nat>)
    requires before <= |s|
    ensures r.Some? ==> r.value < before && s[r.value] == '.'
    ensures r.Some? ==> forall k :: r.value < k < before ==> s[k] != '.'
    ensures r.None? ==> forall k :: 0 <= k < before ==> s[k] != '.'
  {
    if before == 0 then None
    else if s[before - 1] == '.' then Some(before - 1)
    else FindLastDot(s, before - 1)
  }

  /** `emailRegex.test(s)`: the earliest usable `@` and the latest usable `.` decide the match. */
  function IsValidEmail(s: string): (ok: bool)
    ensures ok <==> MatchesEmailPattern(s)
  {
    if |s| < 2 || exists k :: 0 <= k < |s| && IsSpace(s[k]) then false
    else
      match (FindAt(s, 1), FindLastDot(s, |s| - 1))
      case (Some(i), Some(j)) => i + 2 <= j
      case _ => false
  }

  /** `\S` also matches `@` and `.`, so several of them are accepted; an empty part or a space is not. */
  lemma EmailPatternExamples()
    ensures MatchesEmailPattern("a@b@c.d")
    ensures !MatchesEmailPattern("@b.c")
    ensures !MatchesEmailPattern("a@.c")
    ensures !MatchesEmailPattern("a@b.")
    ensures !MatchesEmailPattern("a @b.c")
  {
    var ok := "a@b@c.d";
    assert ok[1] == '@' && ok[5] == '.';
    forall k | 0 <= k < |ok| ensures !IsSpace(ok[k]) {
      assert ok[k] in {'a', '@', 'b', 'c', '.', 'd'};
    }
    var noName := "@b.c";
    forall i | 1 <= i < |noName| ensures noName[i] != '@' {
      assert noName[i] in {'b', '.', 'c'};
    }
    var noDomain := "a@.c";
    forall i | 0 <= i < |noDomain| && noDomain[i] == '.' ensures i == 2 {
      assert noDomain[i] in {'a', '@', 'c'} || i == 2;
    }
    forall i | 0 <= i < |noDomain| && noDomain[i] == '@' ensures i == 1 {
      assert noDomain[i] in {'a', '.', 'c'} || i == 1;
    }
    var spaced := "a @b.c";
    assert IsSpace(spaced[1]);
  }
}
