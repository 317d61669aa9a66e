# Forbidden-ID pre-commit checker, modelled in Dafny

This project models the `cpg_id_checker` pre-commit hook. The hook scans
staged text files for internal tracking identifiers of the form `CPG123`
or `XPG45` and fails the commit when it finds one. The model covers the
whole pipeline of `pre_commit_hooks/cpg_id_checker.py`:

- the builtin pattern `[CX]PG\d+`, modelled exactly, including the span
  `re.search` reports;
- the three extension groups and their union, the allow-list;
- `should_check_file`: ignore rules, and the extension as
  `os.path.splitext` computes it on a POSIX path;
- `check_file`: the pattern list with the builtin first, the
  line-by-line scan, the match records, the one printed message, and the
  swallowed read and decode failures;
- the exit-code aggregation of `main`, both as a fold over per-file
  results and as the loop the source runs.

The model proves these properties:

- The scan reports exactly the matching (line, pattern) pairs, in line
  order then pattern order.
- Each record shows a line number in range and the stripped line, and the
  number can be read back from the printed text.
- The printed message splits back into its header and records.
- A file is reported iff it is eligible, readable, and some line holds a
  forbidden ID or a match of an extra pattern.
- The exit code is 1 iff some file was reported, and 0 iff nothing was
  printed.

The tests' inputs are stated as concrete scenarios, with their exact
outputs proved.

Files:

- `text.dfy`: `str.strip()`, `join`/`split` on one character, decimal
  numerals.
- `wrappers.dfy`: the `Option` type.
- `patterns.dfy`: the `Pattern` type and the builtin pattern.
- `paths.dfy`: `splitext`.
- `extensions.dfy`: the allow-list.
- `checker.dfy`: eligibility, scan, records, report, file check, run.
- `scenarios.dfy`: the test inputs.

User-supplied patterns are modelled as opaque: a `Pattern` pairs its
source text with a `search` predicate. File contents are a parameter:
either the lines iteration yields, or `Unreadable`. Output is returned
rather than printed: each file contributes the message passed to `print`,
and `main` contributes its exit code.

## Model

| member | source | states |
|---|---|---|
| Patterns.ContainsForbiddenId | pre_commit_hooks/cpg_id_checker.py:9 | the builtin pattern finds a match in a line iff some `C` or `X` is followed by `PG` and a digit, iff some substring is a whole word of `[CX]PG\d+` |
| Patterns.SearchBuiltin | pre_commit_hooks/cpg_id_checker.py:9 | `re.search` with `[CX]PG\d+`: a reported span is a whole match; no match starts further left; the digit run cannot be extended; no span at all means no substring matches |
| Patterns.MatchesAreStarts | pre_commit_hooks/cpg_id_checker.py:9 | every match begins with a four-character forbidden ID, and every such start is a match |
| Patterns.NoIdWithoutDigitAfterG | pre_commit_hooks/cpg_id_checker.py:9 | a string in which no `G` is directly followed by a digit holds no forbidden ID, since every ID has a `G` right before its first digit |
| Scenarios.NoDigitAfterPG | test/test_cpg_id_checker.py:18 | the indented line `CPG 1` holds no forbidden ID |
| Scenarios.EscapedDigitIsNotADigit | test/test_cpg_id_checker.py:19 | the indented line `CPG\d` (a backslash and a `d`) holds no forbidden ID |
| Scenarios.LettersAfterPG | test/test_cpg_id_checker.py:20 | the indented line `CPGabc` holds no forbidden ID |
| Scenarios.IdWithX | pre_commit_hooks/cpg_id_checker.py:9 | `XPG45` is a forbidden ID: the first letter may be `X` |
| Scenarios.ForbiddenIdSpan | pre_commit_hooks/cpg_id_checker.py:9 | on `ID is: CPG123456` the match found is the whole `CPG123456`, at 7..16 |
| Extensions.AllowListHasSingleSuffixes | pre_commit_hooks/cpg_id_checker.py:12-83 | every allow-listed extension is a dot followed by characters that are neither dots nor separators; none is compound, as the comment at lines 95-96 relies on |
| Extensions.AllowListReachable | pre_commit_hooks/cpg_id_checker.py:81-83 | every entry of the union is the extension `splitext` reports for some file name, so no entry is dead |
| Paths.SplitExt | pre_commit_hooks/cpg_id_checker.py:97 | `posixpath.splitext`: root + extension is the path; the extension is non-empty iff the last component has a dot after some non-dot character; it starts at the last such dot |
| Paths.ExtensionShape | pre_commit_hooks/cpg_id_checker.py:95-97 | a non-empty extension is one leading dot followed by characters that are neither dots nor separators, so no compound extension is ever reported |
| Scenarios.CompoundExtensionIsLastPart | pre_commit_hooks/cpg_id_checker.py:95-97 | `archive.tar.gz` has the extension `.gz`: only the last suffix counts |
| Paths.SuffixIsExtension | pre_commit_hooks/cpg_id_checker.py:97 | appending `.xyz` to an ordinary name makes `.xyz` its extension |
| Paths.DirectoryDotsIgnored | pre_commit_hooks/cpg_id_checker.py:95-97 | dots in directory names never create an extension: only the final component counts |
| Checker.MatchesAnyIgnore | pre_commit_hooks/cpg_id_checker.py:90-93 | true iff some ignore pattern finds a match in the path |
| Checker.ShouldCheckFile | pre_commit_hooks/cpg_id_checker.py:86-103 | a file is scanned iff no ignore pattern matches its path and its extension is empty or allow-listed |
| Checker.IgnoreWins | pre_commit_hooks/cpg_id_checker.py:90-93 | a matching ignore pattern excludes the file whatever its extension and contents: not reported, nothing printed |
| Checker.UnlistedExtensionSkipped | pre_commit_hooks/cpg_id_checker.py:100-101 | a non-empty extension off the allow-list means the file is never scanned, whatever it contains |
| Checker.ExtensionlessScanned | pre_commit_hooks/cpg_id_checker.py:97-103 | a path without an extension is scanned unless an ignore pattern matches it |
| Checker.AllPatterns | pre_commit_hooks/cpg_id_checker.py:112 | the scan's pattern list is the builtin pattern first, then every extra pattern in the order given |
| Checker.LineHits | pre_commit_hooks/cpg_id_checker.py:122-123 | the hits on one line are exactly the patterns that match it, in pattern order |
| Checker.Hits | pre_commit_hooks/cpg_id_checker.py:117-126 | the hits of a file are exactly the matching (line, pattern) pairs, strictly ordered by line then pattern |
| Checker.OrderedUnique | pre_commit_hooks/cpg_id_checker.py:121-126 | two strictly ordered hit lists with the same members are equal, so the scan output is fixed by which pairs match |
| Checker.HitsUnique | pre_commit_hooks/cpg_id_checker.py:121-126 | any strictly ordered list of exactly the matching pairs is the scan's output |
| Checker.Scan | pre_commit_hooks/cpg_id_checker.py:117-126 | the nested loop over lines and patterns appends exactly the matching pairs, in scan order |
| Checker.RecordsOf | pre_commit_hooks/cpg_id_checker.py:124-125 | record `k` reports hit `k`: its number is the 0-based line index plus one, it quotes that pattern's source and shows that line stripped |
| Checker.Records | pre_commit_hooks/cpg_id_checker.py:121-126 | one record per hit of the scan, in scan order: record `k` is numbered hit `k`'s line index plus one, quotes hit `k`'s pattern source and shows that line stripped; numbers lie in 1..#lines and never decrease |
| Checker.RecordsQuoteMatchingPatterns | pre_commit_hooks/cpg_id_checker.py:123-125 | every record quotes the source text of the pattern of its hit, and that pattern matches the line the record names |
| Checker.RecordsCoverMatches | pre_commit_hooks/cpg_id_checker.py:121-125 | every pattern that matches a line has a record naming that line and quoting that pattern's source |
| Checker.FormatRecord | pre_commit_hooks/cpg_id_checker.py:124-125 | the record line is two spaces, the decimal line number, `: Has pattern "`, the pattern's source, `": `, then the stripped line, each at its offset |
| Checker.LineNumberRoundTrip | pre_commit_hooks/cpg_id_checker.py:125 | the line number can be read back from a formatted record line: two spaces, the decimal number, a colon |
| Checker.Report | pre_commit_hooks/cpg_id_checker.py:135 | the message starts with `path:` and a newline, then the record lines joined by newlines, and ends with a newline |
| Checker.ReportLayout | pre_commit_hooks/cpg_id_checker.py:135 | split at newlines, the message is the header `path:`, the record lines in order, and an empty last piece |
| Checker.StripReadLine | pre_commit_hooks/cpg_id_checker.py:121-125 | the stripped text of a line as read, whose only newline is its terminator, holds no newline |
| Checker.ReportedMessageSplits | pre_commit_hooks/cpg_id_checker.py:121-137 | for a reported file whose path and extra patterns hold no newline, the printed message splits back into the header and the record lines of the scan, in order |
| Checker.ForbiddenLineIffHit | pre_commit_hooks/cpg_id_checker.py:121-133 | some record exists iff some line holds a forbidden ID or a match of an extra pattern |
| Checker.CheckFile | pre_commit_hooks/cpg_id_checker.py:106-137 | a file is reported iff it is eligible, readable, and some line matches some pattern; a reported file prints exactly one message (header, records joined by newlines, final newline); otherwise nothing is printed |
| Checker.UnreadableIsClean | pre_commit_hooks/cpg_id_checker.py:127-130 | a failure to open or decode is swallowed: not reported, nothing printed |
| Checker.Aggregate | pre_commit_hooks/cpg_id_checker.py:165-174 | the exit code is 0 or 1; it is 1 iff some file was reported; when each file printed exactly when reported, exit 0 iff nothing was printed |
| Checker.AggregateAppend | pre_commit_hooks/cpg_id_checker.py:165-174 | a run over `a + b` prints `a`'s messages then `b`'s, and fails iff either part fails |
| Checker.Checks | pre_commit_hooks/cpg_id_checker.py:166-171 | every file is checked, in the order given, with the same patterns and ignore rules; each check prints exactly when it reports |
| Checker.RunHook | pre_commit_hooks/cpg_id_checker.py:165-174 | the loop of `main` exits 1 iff some file's check reported, exits 0 iff nothing was printed, and agrees with `Aggregate` |
| Text.Strip | pre_commit_hooks/cpg_id_checker.py:125 | `str.strip()`: the result is a contiguous slice with only whitespace cut on either side, and it neither starts nor ends with whitespace |
| Text.StripIdempotent | pre_commit_hooks/cpg_id_checker.py:125 | stripping twice equals stripping once |
| Text.StripLineTerminator | pre_commit_hooks/cpg_id_checker.py:125 | a line read with its `\n` is shown without it when its text has no surrounding whitespace |
| Text.DecimalString | pre_commit_hooks/cpg_id_checker.py:125 | the f-string numeral is non-empty, all digits, and has no leading zero unless it is `0` |
| Text.DecimalRoundTrip | pre_commit_hooks/cpg_id_checker.py:125 | reading the numeral back gives the line number |
| Text.Join | pre_commit_hooks/cpg_id_checker.py:135 | `'\n'.join`: no parts give the empty string and one part gives itself; `Text.SplitJoin` and `Text.JoinSplit` show that splitting undoes it |
| Text.SplitJoin | pre_commit_hooks/cpg_id_checker.py:135 | splitting a `'\n'.join` of newline-free pieces at newlines gives the pieces back |
| Text.JoinSplit | pre_commit_hooks/cpg_id_checker.py:135 | joining the pieces of a split with the separator gives the string back |
| Scenarios.CleanLinesHaveNoId | test/test_cpg_id_checker.py:16-21 | no line of the passing test's file holds a forbidden ID |
| Scenarios.PassRun | test/test_cpg_id_checker.py:14-28 | the passing test's file: exit 0, nothing printed |
| Scenarios.FailWithForbiddenId | test/test_cpg_id_checker.py:30-43 | `This is a test file with CPG123456` is reported as line 1 with the builtin pattern's text, in the exact message the test expects |
| Scenarios.FailRun | test/test_cpg_id_checker.py:30-43 | that file makes the run exit 1 with exactly that one message |
| Scenarios.FailOnSecondLine | test/test_cpg_id_checker.py:45-62 | a match on the second line is reported as line 2, stripped, in the exact message the test expects |
| Scenarios.FailWithExtraPattern | test/test_cpg_id_checker.py:64-77 | an extra pattern `ABC\d+` matching only line 2 is reported under its own source text |
| Scenarios.ImageExtensionSkipped | test/test_cpg_id_checker.py:79-89 | a `.png` file exits 0 and prints nothing, whatever it holds |
| Scenarios.BinaryFileIgnored | test/test_cpg_id_checker.py:91-102 | `image.png.txt` is eligible (`.txt` counts), and its decode failure gives exit 0 with nothing printed |
| Scenarios.IgnoredByPattern | test/test_cpg_id_checker.py:104-113 | a path matched by an ignore pattern exits 0 and prints nothing, whatever it holds |
| Scenarios.EmptyRun | pre_commit_hooks/cpg_id_checker.py:165-174 | no files: exit 0, nothing printed |

## Left out

- Argument parsing and `re.compile` of the user's strings (lines 140-163) are not modelled. Extra and ignore patterns enter as already compiled `Pattern` values.
- General regular-expression semantics are not modelled: a user pattern is an opaque `search` predicate. Only `[CX]PG\d+` is modelled concretely. So the scenarios with `ABC\d+` and `\.txt$` assume only what the tests rely on: which strings each pattern matches.
- Patterns.ContainsForbiddenId: `\d` is modelled as the ASCII digits `0`-`9`. Python's `re` on `str` also accepts other Unicode decimal digits (Arabic-Indic digits, for example). The same holds for `Patterns.SearchBuiltin` and `Patterns.IsForbiddenId`.
- File I/O is not modelled: opening, decoding in the default encoding, and universal-newline splitting into lines. Contents are a parameter `fs`, giving either the lines as iteration yields them or `Unreadable`. A decode error partway through a file is also `Unreadable`, because the source discards the records gathered so far in that case.
- Checker.ReportedMessageSplits: requires that each line's only newline is its last character, which is what text iteration yields but `FileContents` does not enforce. It also requires that the path and every extra pattern's source hold no newline. POSIX file names and `re.compile` both allow one, and then the message cannot be split back.
- `print` and `sys.exit` are not modelled as side effects. Each reported file contributes the string passed to `print`, and the run returns the exit code. The extra newline `print` itself appends is not modelled; it is what leaves a blank line after each block.
- `os.path.splitext` is modelled for POSIX paths only (`posixpath`); Windows separators and drive letters are not.
- `setup.py` is not modelled: it is packaging metadata.
- In `test_pass` the file is not flushed before it is read, so the hook may see an empty file. `Scenarios.PassRun` models the lines the test writes; an empty file gives the same result (`Scenarios.CleanFile` with no lines).

Two points where the code is easy to misread; the model follows the code:

- The pattern is one letter, `C` or `X`, then `PG`, then digits. It is not two letters.
- The extension follows `splitext`: leading dots of a file name do not start one, so `.bashrc` has none. It is not simply "after the last dot".
