/**
 The forbidden-ID checker (pre_commit_hooks/cpg_id_checker.py): which
 files are scanned, how each line is matched against the ordered pattern
 list, the per-file report, and the exit code of a run.
 */
module Checker {
  import opened Wrappers
  import opened Text
  import opened Patterns
  import Paths
  import Extensions

  // ---------------------------------------------------------------------
  // Eligibility

  /** Some ignore pattern finds a match somewhere in the path. */
  function MatchesAnyIgnore(path: string, ignores: seq<Pattern>): (b: bool)
    ensures b <==> exists k :: 0 <= k < |ignores| && ignores[k].search(path)
  {
    if |ignores| == 0 then false
    else ignores[0].search(path) || MatchesAnyIgnore(path, ignores[1..])
  }

  /** Whether a path is scanned at all: no ignore pattern matches it, and
      its extension is either absent or on the allow-list. */
  function ShouldCheckFile(path: string, ignores: seq<Pattern>): (r: bool)
    ensures r <==>
      && (forall k :: 0 <= k < |ignores| ==> !ignores[k].search(path))
      && (Paths.Ext(path) == [] || Paths.Ext(path) in Extensions.AllTextFileExtensions)
  {
    if MatchesAnyIgnore(path, ignores) then false
    else
      var ext := Paths.Ext(path);
      if ext != [] && ext !in Extensions.AllTextFileExtensions then false else true
  }

  // ---------------------------------------------------------------------
  // Scanning

  /** A match found by the scan: the 0-based index of the line and the
      index of the pattern in the ordered pattern list. */
  datatype Hit = Hit(line: nat, pattern: nat)

  /** The order the scan visits (line, pattern) pairs in: by line, then by
      pattern. */
  predicate Precedes(a: Hit, b: Hit) {
    a.line < b.line || (a.line == b.line && a.pattern < b.pattern)
  }

  predicate StrictlyOrdered(hs: seq<Hit>) {
    forall a, b :: 0 <= a < b < |hs| ==> Precedes(hs[a], hs[b])
  }

  /** Pattern `h.pattern` finds a match in line `h.line`. */
  ghost predicate IsHit(lines: seq<string>, pats: seq<Pattern>, h: Hit) {
    h.line < |lines| && h.pattern < |pats| && pats[h.pattern].search(lines[h.line])
  }

  /** The hits on one line (index `n`), in pattern order. */
  function LineHits(line: string, n: nat, pats: seq<Pattern>): (hs: seq<Hit>)
    ensures forall h :: h in hs <==> h.line == n && h.pattern < |pats| && pats[h.pattern].search(line)
    ensures StrictlyOrdered(hs)
  {
    if |pats| == 0 then []
    else
      var last := |pats| - 1;
      var prev := LineHits(line, n, pats[..last]);
      assert forall h :: h in prev ==> h.pattern < last;
      prev + (if pats[last].search(line) then [Hit(n, last)] else [])
  }

  /** All hits of a file, in the order the scan finds them. */
  function Hits(lines: seq<string>, pats: seq<Pattern>): (hs: seq<Hit>)
    ensures forall h :: h in hs <==> IsHit(lines, pats, h)
    ensures StrictlyOrdered(hs)
  {
    if |lines| == 0 then []
    else
      var last := |lines| - 1;
      var prev := Hits(lines[..last], pats);
      assert forall h :: h in prev ==> h.line < last;
      prev + LineHits(lines[last], last, pats)
  }

  /** Two strictly ordered lists holding the same hits are the same list:
      the scan's output is determined by which (line, pattern) pairs match. */
  lemma {:induction false} OrderedUnique(xs: seq<Hit>, ys: seq<Hit>)
    requires StrictlyOrdered(xs) && StrictlyOrdered(ys)
    requires forall h :: h in xs <==> h in ys
    ensures xs == ys
    decreases |xs|
  {
    if |ys| > 0 {
      assert ys[0] in ys;
    }
    if |xs| > 0 {
      assert xs[0] in xs;
      HeadIsLeast(xs, ys[0]);
      HeadIsLeast(ys, xs[0]);
      TailMembers(xs, ys);
      OrderedUnique(xs[1..], ys[1..]);
      assert xs == [xs[0]] + xs[1..] && ys == [ys[0]] + ys[1..];
    }
  }

  /** In a strictly ordered list every element other than the head comes
      after it. */
  lemma HeadIsLeast(xs: seq<Hit>, h: Hit)
    requires StrictlyOrdered(xs) && h in xs
    ensures h == xs[0] || Precedes(xs[0], h)
  {
    var i :| 0 <= i < |xs| && xs[i] == h;
    if i > 0 {
      assert Precedes(xs[0], xs[i]);
    }
  }

  lemma TailMembers(xs: seq<Hit>, ys: seq<Hit>)
    requires StrictlyOrdered(xs) && StrictlyOrdered(ys)
    requires |xs| > 0 && |ys| > 0 && xs[0] == ys[0]
    requires forall h :: h in xs <==> h in ys
    ensures forall h :: h in xs[1..] <==> h in ys[1..]
  {
    forall h | h in xs[1..] ensures h in ys[1..] {
      var i :| 1 <= i < |xs| && xs[i] == h;
      assert Precedes(xs[0], xs[i]);
      assert h in ys;
      var j :| 0 <= j < |ys| && ys[j] == h;
      assert ys[1..][j - 1] == h;
    }
    forall h | h in ys[1..] ensures h in xs[1..] {
      var j :| 1 <= j < |ys| && ys[j] == h;
      assert Precedes(ys[0], ys[j]);
      assert h in xs;
      var i :| 0 <= i < |xs| && xs[i] == h;
      assert xs[1..][i - 1] == h;
    }
  }

  /** The hits are exactly the matching (line, pattern) pairs in scan
      order: any list with both properties is `Hits`. */
  lemma HitsUnique(lines: seq<string>, pats: seq<Pattern>, hs: seq<Hit>)
    requires StrictlyOrdered(hs)
    requires forall h :: h in hs <==> IsHit(lines, pats, h)
    ensures hs == Hits(lines, pats)
  {
    OrderedUnique(hs, Hits(lines, pats));
  }

  /** One more pattern tried on a line appends at most its own hit. */
  lemma LineHitsStep(line: string, n: nat, pats: seq<Pattern>, j: nat)
    requires j < |pats|
    ensures LineHits(line, n, pats[..j + 1]) ==
      LineHits(line, n, pats[..j]) + (if pats[j].search(line) then [Hit(n, j)] else [])
  {
    assert pats[..j + 1][..j] == pats[..j];
  }

  /** One more line scanned appends that line's hits. */
  lemma HitsStep(lines: seq<string>, pats: seq<Pattern>, i: nat)
    requires i < |lines|
    ensures Hits(lines[..i + 1], pats) == Hits(lines[..i], pats) + LineHits(lines[i], i, pats)
  {
    assert lines[..i + 1][..i] == lines[..i];
  }

  /** The nested loop of the scan: lines in order, and for each line every
      pattern in order, appending one hit per pattern that matches. */
  method Scan(lines: seq<string>, pats: seq<Pattern>) returns (hits: seq<Hit>)
    ensures forall h :: h in hits <==> IsHit(lines, pats, h)
    ensures StrictlyOrdered(hits)
    ensures hits == Hits(lines, pats)
  {
    hits := [];
    var i := 0;
    while i < |lines|
      invariant 0 <= i <= |lines|
      invariant hits == Hits(lines[..i], pats)
    {
      ghost var before := hits;
      var j := 0;
      while j < |pats|
        invariant 0 <= j <= |pats|
        invariant hits == before + LineHits(lines[i], i, pats[..j])
      {
        LineHitsStep(lines[i], i, pats, j);
        if pats[j].search(lines[i]) {
          hits := hits + [Hit(i, j)];
        }
        j := j + 1;
      }
      assert pats[..j] == pats;
      HitsStep(lines, pats, i);
      i := i + 1;
    }
    assert lines[..i] == lines;
  }

  // ---------------------------------------------------------------------
  // Records and the report

  /** One reported match: the 1-based line number, the source text of the
      pattern, and the line with surrounding whitespace stripped. */
  datatype Record = Record(number: nat, patternText: string, content: string)

  /** The patterns a file is scanned with: the builtin first, then the
      extra patterns in the order given. */
  function AllPatterns(extras: seq<Pattern>): (pats: seq<Pattern>)
    ensures |pats| == |extras| + 1
    ensures pats[0].source == BuiltinSource && pats[0].search == ContainsForbiddenId
    ensures forall j :: 0 <= j < |extras| ==> pats[j + 1] == extras[j]
  {
    [Builtin] + extras
  }

  lemma HitsAreValid(lines: seq<string>, pats: seq<Pattern>, hs: seq<Hit>)
    requires hs == Hits(lines, pats)
    ensures forall k :: 0 <= k < |hs| ==> IsHit(lines, pats, hs[k])
    ensures forall k :: 0 <= k < |hs| ==> hs[k].line < |lines| && hs[k].pattern < |pats|
    ensures forall a, b :: 0 <= a < b < |hs| ==> hs[a].line <= hs[b].line
  {
    forall k | 0 <= k < |hs| ensures IsHit(lines, pats, hs[k]) {
      assert hs[k] in hs;
    }
  }

  /** The records of a list of valid hits, one per hit and in its order:
      record `k` names the 1-based line of hit `k`, quotes the source text
      of its pattern and shows its line stripped. */
  function RecordsOf(lines: seq<string>, pats: seq<Pattern>, hs: seq<Hit>): (rs: seq<Record>)
    requires forall k :: 0 <= k < |hs| ==> hs[k].line < |lines| && hs[k].pattern < |pats|
    requires forall a, b :: 0 <= a < b < |hs| ==> hs[a].line <= hs[b].line
    ensures |rs| == |hs|
    ensures forall k :: 0 <= k < |rs| ==>
      && rs[k].number == hs[k].line + 1
      && rs[k].patternText == pats[hs[k].pattern].source
      && rs[k].content == Strip(lines[hs[k].line])
    ensures forall k :: 0 <= k < |rs| ==> 1 <= rs[k].number <= |lines|
    ensures forall a, b :: 0 <= a < b < |rs| ==> rs[a].number <= rs[b].number
  {
    seq(|hs|, k requires 0 <= k < |hs| =>
      Record(hs[k].line + 1, pats[hs[k].pattern].source, Strip(lines[hs[k].line])))
  }

  /** The records of a scan, one per hit, in scan order: record `k` names
      the 1-based line of hit `k`, quotes the source text of its pattern
      and shows that line stripped; line numbers never go down. */
  function Records(lines: seq<string>, pats: seq<Pattern>): (rs: seq<Record>)
    ensures |rs| == |Hits(lines, pats)|
    ensures forall k :: 0 <= k < |rs| ==>
      var h := Hits(lines, pats)[k];
      && h.line < |lines| && h.pattern < |pats|
      && rs[k].number == h.line + 1
      && rs[k].patternText == pats[h.pattern].source
      && rs[k].content == Strip(lines[h.line])
    ensures forall k :: 0 <= k < |rs| ==> 1 <= rs[k].number <= |lines|
    ensures forall a, b :: 0 <= a < b < |rs| ==> rs[a].number <= rs[b].number
  {
    var hs := Hits(lines, pats);
    HitsAreValid(lines, pats, hs);
    RecordsOf(lines, pats, hs)
  }

  /** Every record quotes the source text of a pattern that matches the
      line it names: the pattern of the hit it reports. */
  lemma RecordsQuoteMatchingPatterns(lines: seq<string>, pats: seq<Pattern>)
    ensures forall k :: 0 <= k < |Records(lines, pats)| ==>
      var r := Records(lines, pats)[k];
      var j := Hits(lines, pats)[k].pattern;
      && j < |pats|
      && pats[j].search(lines[r.number - 1])
      && r.patternText == pats[j].source
  {
    var hs := Hits(lines, pats);
    var rs := Records(lines, pats);
    forall k | 0 <= k < |rs|
      ensures hs[k].pattern < |pats| && pats[hs[k].pattern].search(lines[rs[k].number - 1])
    {
      assert hs[k] in hs;
    }
  }

  /** Every pattern that matches a line has a record naming that line and
      quoting that pattern's source text. */
  lemma RecordsCoverMatches(lines: seq<string>, pats: seq<Pattern>)
    ensures forall i, j :: 0 <= i < |lines| && 0 <= j < |pats| && pats[j].search(lines[i]) ==>
      exists k :: 0 <= k < |Records(lines, pats)| &&
        Records(lines, pats)[k].number == i + 1 && Records(lines, pats)[k].patternText == pats[j].source
  {
    var hs := Hits(lines, pats);
    var rs := Records(lines, pats);
    forall i, j | 0 <= i < |lines| && 0 <= j < |pats| && pats[j].search(lines[i])
      ensures exists k :: 0 <= k < |rs| && rs[k].number == i + 1 && rs[k].patternText == pats[j].source
    {
      assert IsHit(lines, pats, Hit(i, j));
      var k :| 0 <= k < |hs| && hs[k] == Hit(i, j);
      assert rs[k].number == i + 1 && rs[k].patternText == pats[j].source;
    }
  }

  /** `  {n}: Has pattern "{source}": {stripped line}`: two spaces, the
      decimal line number, the fixed text, the pattern's source in double
      quotes, a colon and a space, then the stripped line. */
  function FormatRecord(r: Record): (s: string)
    ensures
      var n := |DecimalString(r.number)|;
      var t := |r.patternText|;
      && |s| == 20 + n + t + |r.content|
      && s[..2] == "  "
      && s[2..2 + n] == DecimalString(r.number)
      && s[2 + n..17 + n] == ": Has pattern \""
      && s[17 + n..17 + n + t] == r.patternText
      && s[17 + n + t..20 + n + t] == "\": "
      && s[20 + n + t..] == r.content
  {
    var d := DecimalString(r.number);
    var s := "  " + d + ": Has pattern \"" + r.patternText + "\": " + r.content;
    RecordLayout("  ", d, ": Has pattern \"", r.patternText, "\": ", r.content);
    s
  }

  /** The pieces of a six-part concatenation sit at their offsets. */
  lemma RecordLayout(a: string, b: string, c: string, d: string, e: string, f: string)
    ensures var s := a + b + c + d + e + f;
      var i1 := |a|;
      var i2 := i1 + |b|;
      var i3 := i2 + |c|;
      var i4 := i3 + |d|;
      var i5 := i4 + |e|;
      && |s| == i5 + |f|
      && s[..i1] == a && s[i1..i2] == b && s[i2..i3] == c
      && s[i3..i4] == d && s[i4..i5] == e && s[i5..] == f
  {
  }

  /** The report lines of a list of records, in order. */
  function FormatRecords(rs: seq<Record>): (lines: seq<string>)
    ensures |lines| == |rs|
    ensures forall k :: 0 <= k < |rs| ==> lines[k] == FormatRecord(rs[k])
  {
    seq(|rs|, k requires 0 <= k < |rs| => FormatRecord(rs[k]))
  }

  /** Reads back the line number at the head of a report line. */
  function ReportedLineNumber(s: string): Option<nat> {
    if |s| < 2 || s[..2] != "  " then None
    else
      var e := DigitRunEnd(s, 2);
      if e == 2 || e == |s| || s[e] != ':' then None
      else
        assert AllDigits(s[2..e]);
        Some(DecimalValue(s[2..e]))
  }

  /** Each report line carries its record's line number, and it can be read
      back from the text. */
  lemma {:induction false} LineNumberRoundTrip(r: Record)
    ensures ReportedLineNumber(FormatRecord(r)) == Some(r.number)
  {
    var d := DecimalString(r.number);
    var s := FormatRecord(r);
    var rest := ": Has pattern \"" + r.patternText + "\": " + r.content;
    assert s == "  " + d + rest;
    assert s[..2] == "  ";
    assert s[2 + |d|] == ':';
    forall k | 2 <= k < 2 + |d| ensures IsDigit(s[k]) {
      assert s[k] == d[k - 2];
    }
    DigitRunIs(s, 2, 2 + |d|);
    assert s[2..2 + |d|] == d;
    DecimalRoundTrip(r.number);
  }

  lemma {:induction false} DigitRunIs(s: string, j: nat, e: nat)
    requires j <= e <= |s|
    requires forall k :: j <= k < e ==> IsDigit(s[k])
    requires e == |s| || !IsDigit(s[e])
    ensures DigitRunEnd(s, j) == e
    decreases e - j
  {
    if j < e {
      DigitRunIs(s, j + 1, e);
    }
  }

  /** The one message printed for a file with matches: a header naming the
      file, the report lines joined by newlines, and a final newline. */
  function Report(path: string, rs: seq<Record>): (m: string)
    ensures |m| >= |path| + 3
    ensures m[..|path| + 2] == path + ":\n"
    ensures m[|path| + 2..|m| - 1] == Join(FormatRecords(rs), '\n')
    ensures m[|m| - 1] == '\n'
  {
    path + ":\n" + Join(FormatRecords(rs), '\n') + "\n"
  }

  predicate NoNewline(s: string) {
    forall j :: 0 <= j < |s| ==> s[j] != '\n'
  }

  /** Read line by line, a report is the header `path:`, one line per
      record in order, and an empty last piece after the final newline. */
  lemma ReportLayout(path: string, rs: seq<Record>)
    requires |rs| >= 1
    requires NoNewline(path)
    requires forall k :: 0 <= k < |rs| ==> NoNewline(FormatRecord(rs[k]))
    ensures Split(Report(path, rs), '\n') == [path + ":"] + FormatRecords(rs) + [""]
  {
    var f := FormatRecords(rs);
    var parts := [path + ":"] + f + [""];
    JoinTrailingEmpty(f, '\n');
    JoinCons(path + ":", f + [""], '\n');
    assert parts == [path + ":"] + (f + [""]);
    assert path + ":\n" == path + ":" + ['\n'];
    assert Join(parts, '\n') == Report(path, rs);
    assert forall k :: 0 <= k < |parts| ==> NoNewline(parts[k]) by {
      forall k | 0 <= k < |parts| ensures NoNewline(parts[k]) {
        if k == 0 {
          assert parts[0] == path + ":";
        } else if k <= |f| {
          assert parts[k] == f[k - 1];
        } else {
          assert parts[k] == "";
        }
      }
    }
    SplitJoin(parts, '\n');
  }

  // ---------------------------------------------------------------------
  // Checking one file

  /** What opening and reading a file gives: its lines as text iteration
      yields them, or a failure to open or decode it. */
  datatype FileContents = Lines(lines: seq<string>) | Unreadable

  /** Whether the file is reported, and the messages printed for it. */
  datatype FileCheck = FileCheck(hasError: bool, printed: seq<string>)

  /** Some line contains a forbidden ID or a match of an extra pattern. */
  ghost predicate HasForbiddenLine(lines: seq<string>, extras: seq<Pattern>) {
    exists i :: 0 <= i < |lines| &&
      (ContainsForbiddenId(lines[i]) || exists j :: 0 <= j < |extras| && extras[j].search(lines[i]))
  }

  lemma ForbiddenLineIffHit(lines: seq<string>, extras: seq<Pattern>)
    ensures HasForbiddenLine(lines, extras) <==> |Hits(lines, AllPatterns(extras))| > 0
  {
    if HasForbiddenLine(lines, extras) {
      ForbiddenLineGivesHit(lines, extras);
    }
    if |Hits(lines, AllPatterns(extras))| > 0 {
      HitGivesForbiddenLine(lines, extras);
    }
  }

  lemma ForbiddenLineGivesHit(lines: seq<string>, extras: seq<Pattern>)
    requires HasForbiddenLine(lines, extras)
    ensures |Hits(lines, AllPatterns(extras))| > 0
  {
    var pats := AllPatterns(extras);
    var i :| 0 <= i < |lines| &&
      (ContainsForbiddenId(lines[i]) || exists j :: 0 <= j < |extras| && extras[j].search(lines[i]));
    var h: Hit;
    if ContainsForbiddenId(lines[i]) {
      h := Hit(i, 0);
    } else {
      var j :| 0 <= j < |extras| && extras[j].search(lines[i]);
      h := Hit(i, j + 1);
    }
    assert IsHit(lines, pats, h);
    assert h in Hits(lines, pats);
  }

  lemma HitGivesForbiddenLine(lines: seq<string>, extras: seq<Pattern>)
    requires |Hits(lines, AllPatterns(extras))| > 0
    ensures HasForbiddenLine(lines, extras)
  {
    var pats := AllPatterns(extras);
    var h := Hits(lines, pats)[0];
    assert h in Hits(lines, pats);
    assert IsHit(lines, pats, h);
    if h.pattern > 0 {
      assert pats[h.pattern] == extras[h.pattern - 1];
    }
  }

  /** `check_file`: skip ineligible and unreadable files, otherwise scan
      and print one report when there is at least one record. */
  function CheckFile(path: string, contents: FileContents, extras: seq<Pattern>, ignores: seq<Pattern>): (r: FileCheck)
    ensures r.hasError <==>
      ShouldCheckFile(path, ignores) && contents.Lines? && HasForbiddenLine(contents.lines, extras)
    ensures !r.hasError ==> r.printed == []
    ensures r.hasError ==> r.printed == [Report(path, Records(contents.lines, AllPatterns(extras)))]
  {
    if !ShouldCheckFile(path, ignores) then FileCheck(false, [])
    else match contents
      case Unreadable => FileCheck(false, [])
      case Lines(lines) =>
        ForbiddenLineIffHit(lines, extras);
        var rs := Records(lines, AllPatterns(extras));
        if |rs| == 0 then FileCheck(false, []) else FileCheck(true, [Report(path, rs)])
  }

  /** An ignore rule wins over everything else: the file is not scanned,
      nothing is printed, and its contents do not matter. */
  lemma IgnoreWins(path: string, contents: FileContents, extras: seq<Pattern>, ignores: seq<Pattern>, k: nat)
    requires k < |ignores| && ignores[k].search(path)
    ensures !ShouldCheckFile(path, ignores)
    ensures CheckFile(path, contents, extras, ignores) == FileCheck(false, [])
  {
  }

  /** A file whose extension is present but not allow-listed is never
      scanned, whatever it contains. */
  lemma UnlistedExtensionSkipped(path: string, contents: FileContents, extras: seq<Pattern>, ignores: seq<Pattern>)
    requires Paths.Ext(path) != [] && Paths.Ext(path) !in Extensions.AllTextFileExtensions
    ensures !ShouldCheckFile(path, ignores)
    ensures CheckFile(path, contents, extras, ignores) == FileCheck(false, [])
  {
  }

  /** A file with no extension is scanned unless an ignore rule matches. */
  lemma ExtensionlessScanned(path: string, ignores: seq<Pattern>)
    requires Paths.Ext(path) == []
    requires forall k :: 0 <= k < |ignores| ==> !ignores[k].search(path)
    ensures ShouldCheckFile(path, ignores)
  {
  }

  /** Failing to open or decode a file is swallowed: no error, no output. */
  lemma UnreadableIsClean(path: string, extras: seq<Pattern>, ignores: seq<Pattern>)
    ensures CheckFile(path, Unreadable, extras, ignores) == FileCheck(false, [])
  {
  }

  /** A line as text iteration yields it: a newline can only be its last
      character. */
  predicate IsReadLine(l: string) {
    forall j :: 0 <= j < |l| - 1 ==> l[j] != '\n'
  }

  /** Stripping a line as read removes its terminator, so the shown text
      holds no newline. */
  lemma StripReadLine(l: string)
    requires IsReadLine(l)
    ensures NoNewline(Strip(l))
  {
    var t := Strip(l);
    var a, b :| 0 <= a <= b <= |l| && t == l[a..b] && (forall k :: b <= k < |l| ==> IsSpace(l[k]));
    forall j | 0 <= j < |t| ensures t[j] != '\n' {
      assert t[j] == l[a + j];
      if a + j == |l| - 1 {
        assert j == |t| - 1;
        assert !IsSpace(t[j]);
      }
    }
  }

  /** A record line holds no newline when neither the pattern's source nor
      the shown text does. */
  lemma FormatRecordNoNewline(r: Record)
    requires NoNewline(r.patternText) && NoNewline(r.content)
    ensures NoNewline(FormatRecord(r))
  {
    var s := FormatRecord(r);
    var d := DecimalString(r.number);
    var n := |d|;
    var t := |r.patternText|;
    forall j | 0 <= j < |s| ensures s[j] != '\n' {
      if j < 2 {
        assert s[j] == s[..2][j];
      } else if j < 2 + n {
        assert s[j] == s[2..2 + n][j - 2];
        assert IsDigit(d[j - 2]);
      } else if j < 17 + n {
        assert s[j] == s[2 + n..17 + n][j - 2 - n];
      } else if j < 17 + n + t {
        assert s[j] == s[17 + n..17 + n + t][j - 17 - n];
      } else if j < 20 + n + t {
        assert s[j] == s[17 + n + t..20 + n + t][j - 17 - n - t];
      } else {
        assert s[j] == s[20 + n + t..][j - 20 - n - t];
      }
    }
  }

  lemma BuiltinSourceHasNoNewline()
    ensures NoNewline(BuiltinSource)
  {
    forall j | 0 <= j < |BuiltinSource| ensures BuiltinSource[j] != '\n' {
      assert BuiltinSource[j] in BuiltinSource;
    }
  }

  /** No record line of a scan holds a newline when no line does before
      its end and no pattern's source does. */
  lemma RecordLinesHaveNoNewline(lines: seq<string>, pats: seq<Pattern>)
    requires forall i :: 0 <= i < |lines| ==> IsReadLine(lines[i])
    requires forall j :: 0 <= j < |pats| ==> NoNewline(pats[j].source)
    ensures forall k :: 0 <= k < |Records(lines, pats)| ==> NoNewline(FormatRecord(Records(lines, pats)[k]))
  {
    var rs := Records(lines, pats);
    forall k | 0 <= k < |rs| ensures NoNewline(FormatRecord(rs[k])) {
      var h := Hits(lines, pats)[k];
      StripReadLine(lines[h.line]);
      FormatRecordNoNewline(rs[k]);
    }
  }

  /** The message printed for a reported file reads back, line by line, as
      the header and the record lines in scan order, provided the path and
      the extra patterns' sources hold no newline. */
  lemma ReportedMessageSplits(path: string, lines: seq<string>, extras: seq<Pattern>, ignores: seq<Pattern>)
    requires NoNewline(path)
    requires forall i :: 0 <= i < |lines| ==> IsReadLine(lines[i])
    requires forall j :: 0 <= j < |extras| ==> NoNewline(extras[j].source)
    ensures CheckFile(path, Lines(lines), extras, ignores).hasError ==>
      Split(CheckFile(path, Lines(lines), extras, ignores).printed[0], '\n') ==
        [path + ":"] + FormatRecords(Records(lines, AllPatterns(extras))) + [""]
  {
    var c := CheckFile(path, Lines(lines), extras, ignores);
    if c.hasError {
      var pats := AllPatterns(extras);
      assert forall j :: 0 <= j < |pats| ==> NoNewline(pats[j].source) by {
        forall j | 0 <= j < |pats| ensures NoNewline(pats[j].source) {
          if j == 0 {
            BuiltinSourceHasNoNewline();
          } else {
            assert pats[j] == extras[j - 1];
          }
        }
      }
      var rs := Records(lines, pats);
      RecordLinesHaveNoNewline(lines, pats);
      assert c.printed == [Report(path, rs)];
      ForbiddenLineGivesHit(lines, extras);
      ReportLayout(path, rs);
    }
  }

  // ---------------------------------------------------------------------
  // A run over the file list

  /** Exit code and printed messages of a whole run. */
  datatype RunResult = RunResult(exitCode: int, printed: seq<string>)

  /** A file's check printed a message exactly when it reported an error. */
  predicate Consistent(c: FileCheck) {
    |c.printed| == (if c.hasError then 1 else 0)
  }

  /** The aggregation over the file checks, in order: the exit code is 1
      iff some file reported an error, and the messages are concatenated. */
  function Aggregate(checks: seq<FileCheck>): (r: RunResult)
    ensures r.exitCode == 0 || r.exitCode == 1
    ensures r.exitCode == 1 <==> exists i :: 0 <= i < |checks| && checks[i].hasError
    ensures (forall i :: 0 <= i < |checks| ==> Consistent(checks[i])) ==>
      (r.exitCode == 0 <==> r.printed == []) && |r.printed| <= |checks|
  {
    if |checks| == 0 then RunResult(0, [])
    else
      var last := |checks| - 1;
      var prev := Aggregate(checks[..last]);
      var c := checks[last];
      assert forall i :: 0 <= i < last ==> checks[..last][i] == checks[i];
      RunResult(if prev.exitCode == 1 || c.hasError then 1 else 0, prev.printed + c.printed)
  }

  /** Aggregation composes: the messages of `a + b` are those of `a` then
      those of `b`, and the run fails iff either part fails. */
  lemma {:induction false} AggregateAppend(a: seq<FileCheck>, b: seq<FileCheck>)
    ensures Aggregate(a + b).printed == Aggregate(a).printed + Aggregate(b).printed
    ensures Aggregate(a + b).exitCode ==
      (if Aggregate(a).exitCode == 1 || Aggregate(b).exitCode == 1 then 1 else 0)
    decreases |b|
  {
    if |b| == 0 {
      assert a + b == a;
    } else {
      var last := |b| - 1;
      assert (a + b)[..|a + b| - 1] == a + b[..last];
      assert (a + b)[|a + b| - 1] == b[last];
      AggregateAppend(a, b[..last]);
    }
  }

  /** The check of every file, in the order given; `fs` stands for the
      file system as the run reads it. */
  function Checks(files: seq<string>, fs: string -> FileContents, extras: seq<Pattern>, ignores: seq<Pattern>): (cs: seq<FileCheck>)
    ensures |cs| == |files|
    ensures forall i :: 0 <= i < |files| ==> cs[i] == CheckFile(files[i], fs(files[i]), extras, ignores)
    ensures forall i :: 0 <= i < |files| ==> Consistent(cs[i])
  {
    seq(|files|, i requires 0 <= i < |files| => CheckFile(files[i], fs(files[i]), extras, ignores))
  }

  /** One more file checked extends the aggregate by that file's outcome. */
  lemma AggregateStep(cs: seq<FileCheck>, i: nat)
    requires i < |cs|
    ensures Aggregate(cs[..i + 1]) ==
      RunResult(if Aggregate(cs[..i]).exitCode == 1 || cs[i].hasError then 1 else 0,
                Aggregate(cs[..i]).printed + cs[i].printed)
  {
    assert cs[..i + 1][..i] == cs[..i];
  }

  /** `main`: check every file in order, remember whether any was reported,
      and exit with 1 if so and 0 otherwise. */
  method RunHook(files: seq<string>, fs: string -> FileContents, extras: seq<Pattern>, ignores: seq<Pattern>)
    returns (exitCode: int, printed: seq<string>)
    ensures exitCode == 0 || exitCode == 1
    ensures exitCode == 1 <==>
      exists i :: 0 <= i < |files| && CheckFile(files[i], fs(files[i]), extras, ignores).hasError
    ensures exitCode == 0 <==> printed == []
    ensures RunResult(exitCode, printed) == Aggregate(Checks(files, fs, extras, ignores))
  {
    ghost var cs := Checks(files, fs, extras, ignores);
    var hasError := false;
    printed := [];
    var i := 0;
    while i < |files|
      invariant 0 <= i <= |files|
      invariant RunResult(if hasError then 1 else 0, printed) == Aggregate(cs[..i])
    {
      var c := CheckFile(files[i], fs(files[i]), extras, ignores);
      AggregateStep(cs, i);
      if c.hasError {
        hasError := true;
      }
      printed := printed + c.printed;
      i := i + 1;
    }
    assert cs[..i] == cs;
    exitCode := if hasError then 1 else 0;
  }
}
