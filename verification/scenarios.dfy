/**
 Concrete runs of the checker on the inputs exercised by
 test/test_cpg_id_checker.py, with the exit code and the exact printed
 message each one produces.
 */
module Scenarios {
  import opened Wrappers
  import opened Text
  import opened Patterns
  import opened Paths
  import opened Checker
  import Extensions

  /** A temporary file name as `tempfile.NamedTemporaryFile` makes it: no
      extension. */
  const TempPath: string := "/tmp/tmpa1b2c3"

  // ---------------------------------------------------------------------
  // The test lines

  /** The one line of the failing test, without its terminator. */
  const CpgContent: string := "This is a test file with CPG123456"

  /** The lines of the second-line test. */
  const CpgPreamble: string := "Test file with CPG ID on second line\n"
  const CpgSecond: string := "ID is: CPG123456"

  /** The lines of the extra-pattern test. */
  const AbcPreamble: string := "Test file with ABC ID on second line\n"
  const AbcSecond: string := "ID is: ABC123456"

  /** The lines of the passing test: indented, with no forbidden ID. */
  const CleanLines: seq<string> := [
    "\n",
    "        This is a test file with no CPG IDs\n",
    "        CPG 1\n",
    "        CPG\\d\n",
    "        CPGabc\n",
    "        "
  ]

  // ---------------------------------------------------------------------
  // The builtin pattern on the test lines

  /** `CPG` followed by a space is not an ID. */
  lemma NoDigitAfterPG()
    ensures !ContainsForbiddenId("        CPG 1\n")
  {
    NoIdWithoutDigitAfterG("        CPG 1\n");
  }

  /** The two characters `\d` are not a digit. */
  lemma EscapedDigitIsNotADigit()
    ensures !ContainsForbiddenId("        CPG\\d\n")
  {
    NoIdWithoutDigitAfterG("        CPG\\d\n");
  }

  /** Letters after `CPG` are not digits. */
  lemma LettersAfterPG()
    ensures !ContainsForbiddenId("        CPGabc\n")
  {
    NoIdWithoutDigitAfterG("        CPGabc\n");
  }

  lemma CleanSentenceHasNoDigitAfterG()
    ensures NoDigitAfterG("        This is a test file with no CPG IDs\n")
  {
  }

  /** No line of the passing test has a `G` directly before a digit. */
  lemma CleanLinesHaveNoDigitAfterG()
    ensures forall i :: 0 <= i < |CleanLines| ==> NoDigitAfterG(CleanLines[i])
  {
    forall i | 0 <= i < |CleanLines| ensures NoDigitAfterG(CleanLines[i]) {
      if i == 1 {
        CleanSentenceHasNoDigitAfterG();
      }
    }
  }

  lemma CleanLinesHaveNoId()
    ensures forall i :: 0 <= i < |CleanLines| ==> !ContainsForbiddenId(CleanLines[i])
  {
    CleanLinesHaveNoDigitAfterG();
    forall i | 0 <= i < |CleanLines| ensures !ContainsForbiddenId(CleanLines[i]) {
      NoIdWithoutDigitAfterG(CleanLines[i]);
    }
  }

  /** Mentioning "CPG ID" in prose is not an ID. */
  lemma NoIdInCpgPreamble()
    ensures !ContainsForbiddenId(CpgPreamble)
  {
    NoIdWithoutDigitAfterG(CpgPreamble);
  }

  lemma NoIdInAbcPreamble()
    ensures !ContainsForbiddenId(AbcPreamble)
  {
    NoIdWithoutDigitAfterG(AbcPreamble);
  }

  /** An ID of another scheme is not a forbidden ID. */
  lemma NoIdInAbcSecond()
    ensures !ContainsForbiddenId(AbcSecond + "\n")
  {
    NoIdWithoutDigitAfterG(AbcSecond + "\n");
  }

  lemma IdInCpgContent()
    ensures ContainsForbiddenId(CpgContent + "\n")
  {
    assert IdStartsAt(CpgContent + "\n", 25);
  }

  lemma IdInCpgSecond()
    ensures ContainsForbiddenId(CpgSecond + "\n")
  {
    assert IdStartsAt(CpgSecond + "\n", 7);
  }

  lemma IdWithX()
    ensures ContainsForbiddenId("XPG45")
  {
    assert IdStartsAt("XPG45", 0);
  }

  /** The match `re.search` reports: the leftmost one, with every digit. */
  lemma ForbiddenIdSpan()
    ensures SearchBuiltin("ID is: CPG123456\n") == Some((7, 16))
  {
    var s := "ID is: CPG123456\n";
    assert IdStartsAt(s, 7);
    assert FirstIdStart(s, 0) == Some(7);
  }

  // ---------------------------------------------------------------------
  // Stripping the test lines

  lemma StripCpgContent()
    ensures Strip(CpgContent + "\n") == CpgContent
  {
    StripLineTerminator(CpgContent);
  }

  lemma StripCpgSecond()
    ensures Strip(CpgSecond + "\n") == CpgSecond
  {
    StripLineTerminator(CpgSecond);
  }

  lemma StripAbcSecond()
    ensures Strip(AbcSecond + "\n") == AbcSecond
  {
    StripLineTerminator(AbcSecond);
  }

  // ---------------------------------------------------------------------
  // Whole-file checks

  lemma TempPathHasNoExtension()
    ensures Ext(TempPath) == []
  {
  }

  lemma TempPathScanned()
    ensures ShouldCheckFile(TempPath, [])
  {
    TempPathHasNoExtension();
    ExtensionlessScanned(TempPath, []);
  }

  /** A compound suffix counts by its last part only: `archive.tar.gz`
      has the extension `.gz`. */
  lemma CompoundExtensionIsLastPart()
    ensures Ext("archive.tar" + ".gz") == ".gz"
  {
    SuffixIsExtension("archive.tar", ".gz");
  }

  /** When exactly one (line, pattern) pair matches, the scan yields
      exactly one record. */
  lemma SingleHit(lines: seq<string>, pats: seq<Pattern>, h: Hit)
    requires IsHit(lines, pats, h)
    requires forall i, j :: 0 <= i < |lines| && 0 <= j < |pats| && pats[j].search(lines[i]) ==>
      i == h.line && j == h.pattern
    ensures Records(lines, pats) == [Record(h.line + 1, pats[h.pattern].source, Strip(lines[h.line]))]
  {
    HitsUnique(lines, pats, [h]);
    var rs := Records(lines, pats);
    assert |rs| == 1 && Hits(lines, pats)[0] == h;
    assert rs[0] == Record(h.line + 1, pats[h.pattern].source, Strip(lines[h.line]));
  }

  /** The message for a single record on one of the first nine lines. */
  lemma SingleRecordReport(path: string, n: nat, text: string, content: string)
    requires 1 <= n <= 9
    ensures Report(path, [Record(n, text, content)]) ==
      path + ":\n" + ("  " + [DigitChar(n)] + ": Has pattern \"" + text + "\": " + content) + "\n"
  {
    var r := Record(n, text, content);
    assert FormatRecords([r]) == [FormatRecord(r)];
  }

  /** The head of a record line for line 1, as one literal. */
  lemma LinePrefix1()
    ensures "  " + [DigitChar(1)] + ": Has pattern \"" == "  1: Has pattern \""
  {
    assert DigitChar(1) == '1';
  }

  /** The head of a record line for line 2, as one literal. */
  lemma LinePrefix2()
    ensures "  " + [DigitChar(2)] + ": Has pattern \"" == "  2: Has pattern \""
  {
    assert DigitChar(2) == '2';
  }

  lemma ReportOnLine1(path: string, text: string, content: string)
    ensures Report(path, [Record(1, text, content)]) ==
      path + ":\n" + "  1: Has pattern \"" + text + "\": " + content + "\n"
  {
    SingleRecordReport(path, 1, text, content);
    LinePrefix1();
  }

  lemma ReportOnLine2(path: string, text: string, content: string)
    ensures Report(path, [Record(2, text, content)]) ==
      path + ":\n" + "  2: Has pattern \"" + text + "\": " + content + "\n"
  {
    SingleRecordReport(path, 2, text, content);
    LinePrefix2();
  }

  /** A one-line file whose line holds a forbidden ID, checked with the
      builtin pattern only, is reported once. */
  lemma OneLineFile(path: string, line: string)
    requires ShouldCheckFile(path, [])
    requires ContainsForbiddenId(line)
    ensures CheckFile(path, Lines([line]), [], []) ==
      FileCheck(true, [Report(path, [Record(1, BuiltinSource, Strip(line))])])
  {
    assert AllPatterns([]) == [Builtin];
    SingleHit([line], [Builtin], Hit(0, 0));
    assert HasForbiddenLine([line], []) by {
      assert ContainsForbiddenId([line][0]);
    }
  }

  /** A two-line file where only the second line matches, and only pattern
      `j` of the scanned list matches it. */
  lemma SecondLineFile(path: string, l1: string, l2: string, extras: seq<Pattern>, j: nat)
    requires ShouldCheckFile(path, [])
    requires j <= |extras|
    requires forall k :: 0 <= k <= |extras| ==> !AllPatterns(extras)[k].search(l1)
    requires forall k :: 0 <= k <= |extras| ==> (AllPatterns(extras)[k].search(l2) <==> k == j)
    ensures CheckFile(path, Lines([l1, l2]), extras, []) ==
      FileCheck(true, [Report(path, [Record(2, AllPatterns(extras)[j].source, Strip(l2))])])
  {
    var pats := AllPatterns(extras);
    SingleHit([l1, l2], pats, Hit(1, j));
    ForbiddenLineIffHit([l1, l2], extras);
  }

  /** A two-line file where only the second line matches, with the builtin
      pattern alone. */
  lemma SecondLineBuiltinFile(path: string, l1: string, l2: string)
    requires ShouldCheckFile(path, [])
    requires !ContainsForbiddenId(l1) && ContainsForbiddenId(l2)
    ensures CheckFile(path, Lines([l1, l2]), [], []) ==
      FileCheck(true, [Report(path, [Record(2, BuiltinSource, Strip(l2))])])
  {
    assert AllPatterns([]) == [Builtin];
    SecondLineFile(path, l1, l2, [], 0);
  }

  /** A two-line file where only the second line matches, and only the one
      extra pattern matches it. */
  lemma SecondLineExtraFile(path: string, l1: string, l2: string, extra: Pattern)
    requires ShouldCheckFile(path, [])
    requires !ContainsForbiddenId(l1) && !ContainsForbiddenId(l2)
    requires !extra.search(l1) && extra.search(l2)
    ensures CheckFile(path, Lines([l1, l2]), [extra], []) ==
      FileCheck(true, [Report(path, [Record(2, extra.source, Strip(l2))])])
  {
    var pats := AllPatterns([extra]);
    assert pats[1] == extra;
    SecondLineFile(path, l1, l2, [extra], 1);
  }

  /** A file with one line holding a forbidden ID is reported with that
      line, numbered 1, quoted with the builtin pattern's source. */
  lemma FailWithForbiddenId()
    ensures CheckFile(TempPath, Lines([CpgContent + "\n"]), [], []) ==
      FileCheck(true, [TempPath + ":\n" + "  1: Has pattern \"" + BuiltinSource + "\": " + CpgContent + "\n"])
  {
    IdInCpgContent();
    TempPathScanned();
    StripCpgContent();
    OneLineFile(TempPath, CpgContent + "\n");
    ReportOnLine1(TempPath, BuiltinSource, CpgContent);
  }

  /** The match on line 2 is reported as line 2, stripped of its newline. */
  lemma FailOnSecondLine()
    ensures CheckFile(TempPath, Lines([CpgPreamble, CpgSecond + "\n"]), [], []) ==
      FileCheck(true, [TempPath + ":\n" + "  2: Has pattern \"" + BuiltinSource + "\": " + CpgSecond + "\n"])
  {
    IdInCpgSecond();
    NoIdInCpgPreamble();
    TempPathScanned();
    StripCpgSecond();
    SecondLineBuiltinFile(TempPath, CpgPreamble, CpgSecond + "\n");
    ReportOnLine2(TempPath, BuiltinSource, CpgSecond);
  }

  /** An extra pattern is reported with its own source text. `abc` stands
      for the compiled `ABC\d+`: only what the test relies on is assumed of
      it, that it matches the second line and not the first. */
  lemma FailWithExtraPattern(abc: Pattern)
    requires abc.source == "ABC\\d+"
    requires !abc.search(AbcPreamble) && abc.search(AbcSecond + "\n")
    ensures CheckFile(TempPath, Lines([AbcPreamble, AbcSecond + "\n"]), [abc], []) ==
      FileCheck(true, [TempPath + ":\n" + "  2: Has pattern \"" + "ABC\\d+" + "\": " + AbcSecond + "\n"])
  {
    NoIdInAbcPreamble();
    NoIdInAbcSecond();
    TempPathScanned();
    StripAbcSecond();
    SecondLineExtraFile(TempPath, AbcPreamble, AbcSecond + "\n", abc);
    ReportOnLine2(TempPath, "ABC\\d+", AbcSecond);
  }

  // ---------------------------------------------------------------------
  // Whole runs

  /** A run over a single file exits 1 exactly when that file is reported,
      and prints what the file's check printed. */
  lemma SingleFileRun(path: string, fs: string -> FileContents, extras: seq<Pattern>, ignores: seq<Pattern>)
    ensures Aggregate(Checks([path], fs, extras, ignores)) ==
      var c := CheckFile(path, fs(path), extras, ignores);
      RunResult(if c.hasError then 1 else 0, c.printed)
  {
    var cs := Checks([path], fs, extras, ignores);
    assert cs[..0] == [];
  }

  /** A file whose lines hold no forbidden ID is not reported. */
  lemma CleanFile(path: string, lines: seq<string>)
    requires forall i :: 0 <= i < |lines| ==> !ContainsForbiddenId(lines[i])
    ensures CheckFile(path, Lines(lines), [], []) == FileCheck(false, [])
  {
  }

  /** A file without a forbidden ID makes the run exit 0 and print nothing. */
  lemma PassRun(fs: string -> FileContents)
    requires fs(TempPath) == Lines(CleanLines)
    ensures Aggregate(Checks([TempPath], fs, [], [])) == RunResult(0, [])
  {
    CleanLinesHaveNoId();
    CleanFile(TempPath, CleanLines);
    SingleFileRun(TempPath, fs, [], []);
  }

  /** A file with a forbidden ID makes the run exit 1 with one message. */
  lemma FailRun(fs: string -> FileContents)
    requires fs(TempPath) == Lines([CpgContent + "\n"])
    ensures Aggregate(Checks([TempPath], fs, [], [])) ==
      RunResult(1, [TempPath + ":\n" + "  1: Has pattern \"" + BuiltinSource + "\": " + CpgContent + "\n"])
  {
    FailWithForbiddenId();
    SingleFileRun(TempPath, fs, [], []);
  }

  lemma PngNotProgrammingLanguage()
    ensures ".png" !in Extensions.ProgrammingLanguages
  {
  }

  lemma PngNotBioinfFormat()
    ensures ".png" !in Extensions.BioinfFileFormats
  {
  }

  lemma PngNotText()
    ensures ".png" !in Extensions.TextFileExtensions
  {
  }

  /** A `.png` file is never scanned, whatever it holds. */
  lemma ImageExtensionSkipped(fs: string -> FileContents)
    ensures Aggregate(Checks(["/tmp/tmpa1b2file" + ".png"], fs, [], [])) == RunResult(0, [])
  {
    var p := "/tmp/tmpa1b2file" + ".png";
    SuffixIsExtension("/tmp/tmpa1b2file", ".png");
    PngNotProgrammingLanguage();
    PngNotBioinfFormat();
    PngNotText();
    UnlistedExtensionSkipped(p, fs(p), [], []);
    SingleFileRun(p, fs, [], []);
  }

  /** Only the last extension counts: `image.png.txt` is eligible, and when
      it cannot be decoded the run still exits 0 and prints nothing. */
  lemma BinaryFileIgnored(fs: string -> FileContents)
    requires fs("resources/image.png" + ".txt") == Unreadable
    ensures ShouldCheckFile("resources/image.png" + ".txt", [])
    ensures Aggregate(Checks(["resources/image.png" + ".txt"], fs, [], [])) == RunResult(0, [])
  {
    var p := "resources/image.png" + ".txt";
    SuffixIsExtension("resources/image.png", ".txt");
    assert ".txt" in Extensions.TextFileExtensions;
    SingleFileRun(p, fs, [], []);
  }

  /** A path matched by an ignore pattern is skipped, whatever it holds.
      `ignore` stands for the compiled `\.txt$`, assumed only to match the
      path. */
  lemma IgnoredByPattern(fs: string -> FileContents, ignore: Pattern)
    requires ignore.search("/tmp/tmpa1b2file.txt")
    ensures Aggregate(Checks(["/tmp/tmpa1b2file.txt"], fs, [], [ignore])) == RunResult(0, [])
  {
    var p := "/tmp/tmpa1b2file.txt";
    IgnoreWins(p, fs(p), [], [ignore], 0);
    SingleFileRun(p, fs, [], [ignore]);
  }

  /** No files at all: exit 0, nothing printed. */
  lemma EmptyRun(fs: string -> FileContents, extras: seq<Pattern>, ignores: seq<Pattern>)
    ensures Aggregate(Checks([], fs, extras, ignores)) == RunResult(0, [])
  {
  }
}
