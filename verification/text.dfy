/**
 Text utilities the checker relies on: Python's `str.strip()`, `str.join`
 and `str.split` on a single separator character, and the decimal
 rendering of a line number by an f-string.
 */
module Text {

  /** Python's `str.isspace()` for one character: the ASCII controls
      TAB..CR and FS..US, the space, and the Unicode space separators,
      line and paragraph separators Python classifies as whitespace. */
  predicate IsSpace(c: char) {
    || ('\t' <= c <= '\r')
    || ('\U{1C}' <= c <= '\U{1F}')
    || c == ' '
    || c == '\U{85}'
    || c == '\U{A0}'
    || c == '\U{1680}'
    || ('\U{2000}' <= c <= '\U{200A}')
    || c == '\U{2028}'
    || c == '\U{2029}'
    || c == '\U{202F}'
    || c == '\U{205F}'
    || c == '\U{3000}'
  }

  /** Number of whitespace characters at the start of `s`. */
  function LeadingSpaces(s: string): (n: nat)
    ensures n <= |s|
    ensures forall k :: 0 <= k < n ==> IsSpace(s[k])
    ensures n == |s| || !IsSpace(s[n])
  {
    if |s| > 0 && IsSpace(s[0]) then 1 + LeadingSpaces(s[1..]) else 0
  }

  /** Index where the run of whitespace at the end of `s` begins. */
  function TrailingStart(s: string): (m: nat)
    ensures m <= |s|
    ensures forall k :: m <= k < |s| ==> IsSpace(s[k])
    ensures m == 0 || !IsSpace(s[m - 1])
  {
    if |s| > 0 && IsSpace(s[|s| - 1]) then TrailingStart(s[..|s| - 1]) else |s|
  }

  /** `t` is what is left of `s` once the whitespace at both ends is cut. */
  ghost predicate IsStripOf(s: string, t: string) {
    exists a, b ::
      && 0 <= a <= b <= |s|
      && t == s[a..b]
      && (forall k :: 0 <= k < a ==> IsSpace(s[k]))
      && (forall k :: b <= k < |s| ==> IsSpace(s[k]))
  }

  /** Python's `s.strip()` with no argument. */
  function Strip(s: string): (t: string)
    ensures IsStripOf(s, t)
    ensures t == [] || (!IsSpace(t[0]) && !IsSpace(t[|t| - 1]))
  {
    var a := LeadingSpaces(s);
    var b := a + TrailingStart(s[a..]);
    assert s[a..][..b - a] == s[a..b];
    s[a..b]
  }

  /** Stripping is idempotent: a stripped string has nothing left to cut. */
  lemma StripIdempotent(s: string)
    ensures Strip(Strip(s)) == Strip(s)
  {
    var t := Strip(s);
    if |t| > 0 {
      assert LeadingSpaces(t) == 0;
      assert TrailingStart(t) == |t|;
    }
  }

  /** Stripping a line read with its terminator gives back the text when
      that text neither starts nor ends with whitespace. */
  lemma StripLineTerminator(t: string)
    requires |t| > 0 && !IsSpace(t[0]) && !IsSpace(t[|t| - 1])
    ensures Strip(t + "\n") == t
  {
    var s := t + "\n";
    assert s[0] == t[0];
    assert LeadingSpaces(s) == 0;
    assert s[..|s| - 1] == t;
    assert TrailingStart(s) == |t|;
    assert s[0..|t|] == t;
  }

  // ---------------------------------------------------------------------
  // Joining and splitting on a separator character

  /** Python's `sep.join(parts)` for a one-character separator. */
  function Join(parts: seq<string>, sep: char): (s: string)
    ensures |parts| == 1 ==> s == parts[0]
    ensures |parts| == 0 ==> s == []
  {
    if |parts| == 0 then []
    else if |parts| == 1 then parts[0]
    else parts[0] + [sep] + Join(parts[1..], sep)
  }

  /** Index of the first `c` in `s`, or -1 (Python's `str.find`). */
  function Find(s: string, c: char): (i: int)
    ensures -1 <= i < |s|
    ensures i >= 0 ==> s[i] == c
    ensures forall k :: 0 <= k < |s| && (i < 0 || k < i) ==> s[k] != c
  {
    if |s| == 0 then -1
    else if s[0] == c then 0
    else
      var j := Find(s[1..], c);
      if j < 0 then -1 else j + 1
  }

  /** Python's `s.split(sep)` for a one-character separator: the pieces
      between occurrences of `sep`, always at least one. */
  function Split(s: string, sep: char): (parts: seq<string>)
    ensures |parts| >= 1
    ensures forall k, j :: 0 <= k < |parts| && 0 <= j < |parts[k]| ==> parts[k][j] != sep
    decreases |s|
  {
    var i := Find(s, sep);
    if i < 0 then [s] else [s[..i]] + Split(s[i + 1..], sep)
  }

  /** Splitting undoes joining when no part holds the separator. */
  lemma {:induction false} SplitJoin(parts: seq<string>, sep: char)
    requires |parts| >= 1
    requires forall k, j :: 0 <= k < |parts| && 0 <= j < |parts[k]| ==> parts[k][j] != sep
    ensures Split(Join(parts, sep), sep) == parts
  {
    var p0 := parts[0];
    assert forall j :: 0 <= j < |p0| ==> p0[j] != sep;
    FindAbsent(p0, sep);
    if |parts| > 1 {
      var rest := Join(parts[1..], sep);
      var s := p0 + [sep] + rest;
      FindAfterPrefix(p0, sep, rest);
      assert s[..|p0|] == p0;
      assert s[|p0| + 1..] == rest;
      SplitJoin(parts[1..], sep);
      assert [p0] + parts[1..] == parts;
    }
  }

  /** Joining undoes splitting. */
  lemma {:induction false} JoinSplit(s: string, sep: char)
    ensures Join(Split(s, sep), sep) == s
    decreases |s|
  {
    var i := Find(s, sep);
    if i >= 0 {
      var tail := Split(s[i + 1..], sep);
      JoinSplit(s[i + 1..], sep);
      assert ([s[..i]] + tail)[1..] == tail;
      assert s[..i] + [sep] + s[i + 1..] == s;
    }
  }

  lemma FindAbsent(s: string, c: char)
    requires forall j :: 0 <= j < |s| ==> s[j] != c
    ensures Find(s, c) == -1
  {
  }

  lemma {:induction false} FindAfterPrefix(p: string, c: char, rest: string)
    requires forall j :: 0 <= j < |p| ==> p[j] != c
    ensures Find(p + [c] + rest, c) == |p|
  {
    var s := p + [c] + rest;
    var i := Find(s, c);
    assert s[|p|] == c;
    assert forall j :: 0 <= j < |p| ==> s[j] == p[j];
  }

  /** Joining a list that ends with an empty part appends one separator. */
  lemma {:induction false} JoinTrailingEmpty(parts: seq<string>, sep: char)
    requires |parts| >= 1
    ensures Join(parts + [[]], sep) == Join(parts, sep) + [sep]
  {
    if |parts| == 1 {
      assert (parts + [[]])[1..] == [[]];
    } else {
      assert (parts + [[]])[1..] == parts[1..] + [[]];
      JoinTrailingEmpty(parts[1..], sep);
    }
  }

  /** Joining a list with a first part prepended. */
  lemma JoinCons(head: string, parts: seq<string>, sep: char)
    requires |parts| >= 1
    ensures Join([head] + parts, sep) == head + [sep] + Join(parts, sep)
  {
    assert ([head] + parts)[1..] == parts;
  }

  // ---------------------------------------------------------------------
  // Decimal numerals

  predicate IsDigit(c: char) {
    '0' <= c <= '9'
  }

  function DigitChar(d: nat): (c: char)
    requires d < 10
    ensures IsDigit(c)
  {
    ['0', '1', '2', '3', '4', '5', '6', '7', '8', '9'][d]
  }

  function DigitValue(c: char): (d: nat)
    requires IsDigit(c)
    ensures d < 10
  {
    (c as int - '0' as int) as nat
  }

  predicate AllDigits(s: string) {
    forall k :: 0 <= k < |s| ==> IsDigit(s[k])
  }

  /** End of the run of digits that starts at `j`. */
  function DigitRunEnd(s: string, j: nat): (e: nat)
    requires j <= |s|
    ensures j <= e <= |s|
    ensures forall k :: j <= k < e ==> IsDigit(s[k])
    ensures e == |s| || !IsDigit(s[e])
    decreases |s| - j
  {
    if j < |s| && IsDigit(s[j]) then DigitRunEnd(s, j + 1) else j
  }

  /** The number a string of decimal digits denotes. */
  function DecimalValue(s: string): nat
    requires AllDigits(s)
  {
    if |s| == 0 then 0 else 10 * DecimalValue(s[..|s| - 1]) + DigitValue(s[|s| - 1])
  }

  /** How an f-string renders a natural number: its shortest decimal
      numeral, with no sign and no leading zero. */
  function DecimalString(n: nat): (s: string)
    ensures |s| >= 1
    ensures AllDigits(s)
    ensures s[0] == '0' ==> n == 0 && |s| == 1
  {
    if n < 10 then [DigitChar(n)] else DecimalString(n / 10) + [DigitChar(n % 10)]
  }

  /** Reading the numeral back gives the number. */
  lemma {:induction false} DecimalRoundTrip(n: nat)
    ensures DecimalValue(DecimalString(n)) == n
  {
    var s := DecimalString(n);
    if n >= 10 {
      DecimalRoundTrip(n / 10);
      assert s[..|s| - 1] == DecimalString(n / 10);
    }
  }
}
