/**
 Patterns as the checker uses them, and the builtin forbidden-ID pattern
 `[CX]PG\d+` modelled exactly (pre_commit_hooks/cpg_id_checker.py:9).
 */
module Patterns {
  import opened Wrappers
  import opened Text

  /** A compiled regular expression, seen through the one question the
      checker asks of it: does `re.search` find a match anywhere in a
      string. `source` is the text it was compiled from (`pattern.pattern`). */
  datatype Pattern = Pattern(source: string, search: string -> bool)

  /** The source text of the builtin pattern, exactly as a report quotes it. */
  const BuiltinSource: string := "[CX]PG\\d+"

  /** `t` as a whole is in the language of `[CX]PG\d+`: a `C` or an `X`,
      the letters `PG`, then one or more decimal digits. */
  predicate IsForbiddenId(t: string) {
    && |t| >= 4
    && (t[0] == 'C' || t[0] == 'X')
    && t[1] == 'P'
    && t[2] == 'G'
    && AllDigits(t[3..])
  }

  /** A shortest forbidden ID begins at index `i` of `s`. */
  predicate IdStartsAt(s: string, i: nat) {
    && i + 4 <= |s|
    && (s[i] == 'C' || s[i] == 'X')
    && s[i + 1] == 'P'
    && s[i + 2] == 'G'
    && IsDigit(s[i + 3])
  }

  /** First index at or after `from` where a forbidden ID begins. */
  function FirstIdStart(s: string, from: nat): (r: Option<nat>)
    ensures r.Some? ==> from <= r.value && IdStartsAt(s, r.value)
    ensures r.Some? ==> forall k :: from <= k < r.value ==> !IdStartsAt(s, k)
    ensures r.None? ==> forall k :: from <= k ==> !IdStartsAt(s, k)
    decreases |s| - from
  {
    if from + 4 > |s| then None
    else if IdStartsAt(s, from) then Some(from)
    else FirstIdStart(s, from + 1)
  }

  /** Every match of `[CX]PG\d+` begins with a shortest one, and every
      shortest one is a match. */
  lemma MatchesAreStarts(s: string)
    ensures forall a, b :: 0 <= a <= b <= |s| && IsForbiddenId(s[a..b]) ==> IdStartsAt(s, a)
    ensures forall i: nat :: IdStartsAt(s, i) ==> IsForbiddenId(s[i..i + 4])
  {
    forall a, b | 0 <= a <= b <= |s| && IsForbiddenId(s[a..b]) ensures IdStartsAt(s, a) {
      assert s[a..b][3] == s[a + 3];
    }
    forall i: nat | IdStartsAt(s, i) ensures IsForbiddenId(s[i..i + 4]) {
      assert s[i..i + 4][3..] == [s[i + 3]];
    }
  }

  /** `re.search` with `[CX]PG\d+`: the span of the leftmost match, with
      the digits consumed greedily. */
  function SearchBuiltin(s: string): (m: Option<(nat, nat)>)
    ensures m.Some? ==> m.value.0 <= m.value.1 <= |s| && IsForbiddenId(s[m.value.0..m.value.1])
    ensures m.Some? ==> forall a, b :: 0 <= a < m.value.0 && a <= b <= |s| ==> !IsForbiddenId(s[a..b])
    ensures m.Some? ==> forall b :: m.value.1 < b <= |s| ==> !IsForbiddenId(s[m.value.0..b])
    ensures m.None? ==> forall a, b :: 0 <= a <= b <= |s| ==> !IsForbiddenId(s[a..b])
  {
    MatchesAreStarts(s);
    match FirstIdStart(s, 0)
    case None => None
    case Some(i) =>
      var e := DigitRunEnd(s, i + 3);
      GreedyEnd(s, i, e);
      Some((i, e))
  }

  /** No match starting at `i` extends past the end of its digit run. */
  lemma GreedyEnd(s: string, i: nat, e: nat)
    requires i + 3 <= e <= |s|
    requires e == |s| || !IsDigit(s[e])
    ensures forall b :: e < b <= |s| ==> !IsForbiddenId(s[i..b])
  {
    forall b | e < b <= |s| ensures !IsForbiddenId(s[i..b]) {
      assert s[i..b][e - i] == s[e];
    }
  }

  /** The builtin pattern's `search`: true iff the line contains a
      forbidden ID, that is some `C` or `X`, then `PG`, then a digit. */
  function ContainsForbiddenId(s: string): (found: bool)
    ensures found <==> exists i :: IdStartsAt(s, i)
    ensures found <==> exists a, b :: 0 <= a <= b <= |s| && IsForbiddenId(s[a..b])
  {
    MatchesAreStarts(s);
    SearchBuiltin(s).Some?
  }

  /** No `G` in `s` is directly followed by a digit. */
  predicate NoDigitAfterG(s: string) {
    forall i :: 0 <= i < |s| - 1 && s[i] == 'G' ==> !IsDigit(s[i + 1])
  }

  /** A string in which no `G` is directly followed by a digit holds no
      forbidden ID, whatever else it says: every ID has a `G` right before
      its first digit. */
  lemma NoIdWithoutDigitAfterG(s: string)
    requires NoDigitAfterG(s)
    ensures !ContainsForbiddenId(s)
  {
    forall i: nat | IdStartsAt(s, i) ensures false {
      assert s[i + 2] == 'G';
    }
  }

  /** The builtin pattern, always first in the list a file is scanned with. */
  const Builtin: Pattern := Pattern(BuiltinSource, ContainsForbiddenId)
}
