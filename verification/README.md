# summary_outputs, modelled in Dafny

`summary_outputs.py` condenses the reports written by the backport tracker
(`chk-followups.py`) into one tab-separated row per report. Each report
starts with a six-line header of `# key: value` comment lines. The first two
name the upstream and downstream ref ranges (`<ref1>..<ref2>`), and the other
four give the hash of each ref. The report ends with a `SUMMARY` block of
three sentences that carry six counts. For each report the program:

- reads the header with `parse_refs`;
- looks up the commit date of the first two refs of each range with git;
- reads the counts with `parse_summary`;
- prints `<file>\t<six counts>\t# up: <date>..<date> dn: <date>..<date>`.

This project models that pipeline as pure functions over `seq<string>`, one
module per concern:

| file | module | what it models |
|---|---|---|
| wrappers.dfy | `Wrappers` | `Option` and `Result` (with `:-`) for lookups and parses that can fail |
| text.dfy | `Text` | the Python string operations the parsers rely on. `str.isspace` (the 29 whitespace code points), `strip()`, `split()` on whitespace runs, `split(sep)`, `sep.join`, `int()` on decimal digits, `'%d'`, and the list slices `xs[:n]` and `xs[-n:]` |
| dates.dfy | `Dates` | `datetime` dates (years 1 to 9999), `strftime('%Y-%m-%d')` and `fmt_date_range` |
| summaries.dfy | `Summaries` | `Summary`, `Summary.__str__`, `parse_summary` and the summary block's layout |
| refs.dfy | `Refs` | `parse_refs` as its loop runs, and an independent reading of the header by line position |
| reports.dfy | `Reports` | `parse_pr_summary`, with git's commit date lookup as a parameter and the printed line as a value |

Python's exceptions and `exit(1)` become error variants, so every failure is
a value the contracts can talk about:

- `RefsError.WrongLineCount` and `Abort.HeaderTooShort` are `parse_refs`'s exit.
- `RefsError.BadLine` and `RefsError.HashNotFound` are its `(None, None, None)`.
- `SummaryError.NotASummary` is `parse_summary`'s `None`.
- `MissingLine`, `MissingToken` and `NotANumber` are its `IndexError` and `ValueError`.
- `Abort.RangeTooShort` is the `IndexError` of `upstream[1]` or `downstream[1]`.
- `Abort.NoCommitDate` is `commit_date`'s exit.

`parse_pr_summary` itself returns `Outcome.Printed(row)`, `Skipped`
(its bare `return`) or `Aborted(reason)`. The printed text is `Reports.ShowRow(row)`.

Two reference definitions serve as partners for the parsers:

- `Refs.PositionalRefs` reads the header by position: line 0 is upstream, line 1 is downstream, and lines 2 to 5 are hashes. `Refs.ParseRefsPositional` proves that the loop does exactly this.
- Renderers for the documented report layout (`Refs.RenderRefs`, `Summaries.ReportLines`, `Reports.ShowRow`) come with round-trip lemmas, and `Reports.CondenseReport` states what `parse_pr_summary` returns for a whole rendered report.

## Model

| member | source | states |
|---|---|---|
| Text.Strip | summary_outputs.py:48 | `strip()` leaves a result that neither starts nor ends with whitespace |
| Text.StripRemovesOnlySpace | summary_outputs.py:48 | `strip()` returns a contiguous part of the line with only whitespace cut on either side |
| Text.StripTrailingSpace | summary_outputs.py:48 | stripping a line whose only surrounding whitespace is its trailing newline gives the line's text |
| Text.Words | summary_outputs.py:26-31 | every token of `split()` is non-empty and holds no whitespace |
| Text.WordsCoverLine | summary_outputs.py:26-31 | any line is its `split()` tokens with whitespace gaps between them, the inner gaps non-empty and the outer ones possibly empty, so the tokens are the line's maximal non-whitespace runs |
| Text.WordsOfInterleave | summary_outputs.py:26-31 | conversely, non-empty whitespace-free words with whitespace gaps between them (tabs, runs of blanks, leading and trailing whitespace) split back into exactly those words |
| Text.WordsOfJoin | summary_outputs.py:26-31 | `split()` of words joined by single spaces and followed by whitespace gives back exactly those words |
| Text.SplitOn | summary_outputs.py:48-56 | `split(sep)` gives at least one field, the fields joined by `sep` are the input, no field contains `sep`, and no match of `sep` starts inside a field and runs into the separator after it (matches are taken leftmost first) |
| Text.SplitOnExactly | summary_outputs.py:48-56 | conversely, any fields meeting those conditions are exactly what `split(sep)` returns for their join |
| Text.SplitOfJoin | summary_outputs.py:48-56 | `split(sep)` of a join recovers the parts when no part can be mistaken for the separator |
| Text.ParseNat | summary_outputs.py:26-31 | `int()` of a token succeeds exactly when the token is a non-empty string of decimal digits |
| Text.ParseNatValue | summary_outputs.py:26-31 | `int()` of a digit string is the number whose zero-padded form of that width is the string, so leading zeros count as zeros (`int("007")` is 7) |
| Text.ShowNat | summary_outputs.py:17-19 | `'%d'` renders a count as canonical decimal digits whose value is the count |
| Text.ParseShowNat | summary_outputs.py:17-19 | `int()` of a count printed with `'%d'` is the count |
| Text.ShowParsedNat | summary_outputs.py:26-31 | a canonical digit string is the `'%d'` rendering of the number `int()` reads from it |
| Text.Take | summary_outputs.py:102 | `xs[:6]` has `min(6, len(xs))` elements and is a prefix of `xs` |
| Text.Last | summary_outputs.py:111 | for `n > 0`, `xs[-n:]` (here `xs[-6:]`) has `min(6, len(xs))` elements and is a suffix of `xs` |
| Dates.FormatDate | summary_outputs.py:78 | `strftime('%Y-%m-%d')` has 10 characters, dashes at 4 and 7, and digit fields whose values are the year, month and day |
| Dates.ParseFormatDate | summary_outputs.py:78 | a rendered date reads back as the same date |
| Dates.FormatParsedDate | summary_outputs.py:78 | every `YYYY-MM-DD` string of a real date is that date's rendering |
| Dates.FormatDateInjective | summary_outputs.py:78 | distinct dates render differently |
| Dates.FormatDateRange | summary_outputs.py:77-78 | `fmt_date_range` has 22 characters and splits on `..` into exactly the two renderings, start first |
| Dates.ParseFormatDateRange | summary_outputs.py:77-78 | a rendered range reads back as its start and end dates |
| Summaries.SummaryRow | summary_outputs.py:16-19 | `str(summary)` splits on tabs into the six counts in the order commits, backported, fixed, fixed unapplied, mentioned, mentioned unapplied |
| Summaries.ParseCounts | summary_outputs.py:16-19 | reading six cells succeeds only on six cells, each of which reads as the count in its column |
| Summaries.SummaryRowRoundTrip | summary_outputs.py:16-19 | `str(summary)` loses nothing: it reads back as the same summary |
| Summaries.ParseSummary | summary_outputs.py:21-33 | the result is `None` exactly when the first three lines are not the banner; a summary returned was read from line 3 tokens 3 and 0, line 4 tokens 0 and 4, and line 5 tokens 0 and 4, with the first character of each token 4 dropped |
| Summaries.Count | summary_outputs.py:26-31 | one read `int(lines[i].split()[j])`, or of the token without its first character: a missing line is an `IndexError` on the line exactly when `i` is past the end, a missing token is one exactly when the line has too few tokens, any other failure is a `ValueError` of that token, and whenever the token reads as a number the result is that number |
| Summaries.ParseSummaryComplete | summary_outputs.py:21-33 | conversely, a block with the banner and all six counts in place parses to exactly those counts |
| Summaries.ParseSummaryIgnoresRest | summary_outputs.py:22-31 | lines after the sixth never change the result |
| Summaries.ParseSummaryMissingLine | summary_outputs.py:26-31 | an `IndexError` on a missing line happens only for blocks of fewer than six lines |
| Summaries.ParseReportLines | summary_outputs.py:94-99 | a summary block in the documented layout parses to the summary it shows |
| Summaries.CommitsLineReadable | summary_outputs.py:26-27 | on the line `<N> of the <M> downstream commits ...`, token 0 reads as N and token 3 as M |
| Summaries.FollowupLineReadable | summary_outputs.py:28-31 | on a follow-up line, token 0 reads as the count and token 4 without its `(` as the unapplied count |
| Refs.RefLine | summary_outputs.py:45-51 | a header line fails as "not a comment" exactly when it lacks the `# ` prefix; a comment line succeeds exactly when its stripped rest splits on `: ` into two fields, and otherwise fails with that field count; on success the two fields are the key and the value, neither holding `: ` |
| Refs.Step | summary_outputs.py:53-58 | one pass of the loop body changes at most one of `upstream`, `downstream` and `hashes`: a false `upstream` takes the line's value split on `..`, else a false `downstream` does, else the line's key is set to its value; afterwards `upstream` is true, and `downstream` too if `upstream` was |
| Refs.ScanFrom | summary_outputs.py:44-58 | by Python truthiness, one well-formed line makes `upstream` true, two make `downstream` true, and a third records a hash |
| Refs.FirstMissing | summary_outputs.py:60-63 | no ref is reported exactly when every ref has a hash; a reported ref has no hash and every ref before it has one, so it is the first missing ref in order |
| Refs.CheckRefs | summary_outputs.py:60-64 | the final check succeeds exactly when every ref of both ranges has a hash; otherwise it names the first ref, in the order upstream then downstream, without one |
| Refs.ParseRefs | summary_outputs.py:35-64 | the error is the line-count error exactly when there are not six lines; a result has non-empty ranges, a non-empty map, and a hash for every ref of both ranges |
| Refs.ParseRefsPositional | summary_outputs.py:44-64 | the loop reads the header by position: line 0's value split on `..` is upstream, line 1's is downstream, and lines 2 to 5 fill the map in order |
| Refs.ScanIsStepAll | summary_outputs.py:44-58 | the loop stops at the first malformed line, and otherwise applies the step to every line in order |
| Refs.StepAllAssigns | summary_outputs.py:57-58 | once both ranges are set, every further line only records its key and value |
| Refs.ParseRefsReadsPositions | summary_outputs.py:53-58 | on success, every line is well formed, the ranges are lines 0 and 1 split on `..`, and the keys of the map are exactly the keys of lines 2 to 5 |
| Refs.HeaderLinesAreComments | summary_outputs.py:45-47 | every line of an accepted header starts with `# ` |
| Refs.ParseRefsLastWins | summary_outputs.py:57-58 | among lines 2 to 5, the last line naming a key gives its hash, so a later duplicate overwrites an earlier one |
| Refs.AssignKeys | summary_outputs.py:58 | the keys recorded are the old keys and the keys of the entries |
| Refs.AssignLastWins | summary_outputs.py:58 | the value recorded for a key is that of its last entry |
| Refs.AssignUntouched | summary_outputs.py:58 | a key no entry names keeps its value |
| Refs.RangeKeysIgnored | summary_outputs.py:53-56 | the keys of lines 0 and 1 are never checked: changing them leaves the result unchanged |
| Refs.RefLineRoundTrip | summary_outputs.py:84-89 | a line `# key: value` with plain key and value reads back as that entry |
| Refs.RangeRoundTrip | summary_outputs.py:84-85 | a range of ref names joined by `..` splits back into those names |
| Refs.ParseRenderedRefs | summary_outputs.py:84-89 | a header in the documented layout whose refs all have hash lines parses to its ranges and its hash map |
| Reports.CommitDate | summary_outputs.py:66-75 | `commit_date` returns the date git gives for the hash, and exits, naming that hash, exactly when there is none |
| Reports.RangeDates | summary_outputs.py:106-109 | a range's dates come in Python's evaluation order: a missing date for the first ref wins over a one-ref range, a one-ref range with a dated first ref fails as too short, a missing second date is reported for the second ref's hash, and a success holds the dates of the first and second refs, in that order |
| Reports.ParsePrSummary | summary_outputs.py:102-114 | fewer than six lines stop the program; a bad header is skipped; with a good header, a range that cannot be dated stops the program before the block is read, and once both ranges are dated the report is skipped exactly when its last six lines lack the banner; a row is printed exactly when the report is condensable, and the row holds the report's name, its summary and the commit dates of the first two refs of each range |
| Reports.ParsePrSummaryAborts | summary_outputs.py:102-114 | with a good header, an undated upstream range is the reason the program stops, then an undated downstream range, and once both are dated a summary that raises is the reason |
| Reports.Condense | summary_outputs.py:106-114 | after the header, the upstream range is dated first and its failure stops the program, then the downstream range; once both are dated, a block without the banner is skipped, a summary that raises stops the program with that error (never a missing line on a six-line block), and a readable block is printed |
| Reports.DatedRanges | summary_outputs.py:106-109 | both ranges are dated exactly when each has two refs with commit dates, the dates are those of the first two refs of each range, and the first range to fail gives the reason |
| Reports.SummaryOutcome | summary_outputs.py:111-114 | once both ranges are dated, a block without the banner skips the report, a summary that raises stops the program with that error and never a missing line on a six-line block, and a readable summary is printed with the given dates |
| Reports.ShowRow | summary_outputs.py:114 | the printed line is as long as the name, the counts, two tabs and the 55-character note; what it holds is stated by `Reports.ReadShowRow` |
| Reports.RangeNote | summary_outputs.py:114 | the note `# up: ... dn: ...` has 55 characters, holds both ranges at fixed places, and contains no tab |
| Reports.ReadShowRow | summary_outputs.py:114 | a printed row whose name has no tab reads back as the name, the summary and both date ranges |
| Reports.OnlyEndsRead | summary_outputs.py:102-111 | only the first six and the last six lines of a report are read |
| Reports.ShortReportNotPrinted | summary_outputs.py:102-113 | no report of fewer than twelve lines is printed, because the summary block would overlap the comment header |
| Reports.CondenseReport | summary_outputs.py:80-114 | a report in the documented layout (header, any middle lines, summary block) is printed with its summary and the commit dates of its refs |

## Left out

- `commit_date` runs `git log` in a subprocess and parses its output with `strptime`. It is the parameter `dateOf: string -> Option<Date>`, whose `None` stands for the function's `exit(1)`. The repository path is folded into `dateOf`.
- `main`, `set_argparser`, the file checks and the file reading are argument parsing and I/O. A report is given as its list of lines, as `readlines()` returns it.
- `pr_comments_legends` and every `print` are console output only. The row `parse_pr_summary` prints is returned as `Outcome.Printed`, and the diagnostic messages are not modelled.
- `exit(1)`, `IndexError` and `ValueError` stop the program in the source. Here they are error variants, with no distinction between an exit and an uncaught exception.
- Text.ParseNat: reads only non-empty ASCII digit strings. It leaves out the rest of `int()`'s grammar: a sign, `_` separators, surrounding whitespace, and non-ASCII decimal digits. The tokens it is applied to come from `split()`, so they never carry whitespace.
- Summaries.Summary: the counts are `nat`. A negative count would be a token with a `-` sign, which `Text.ParseNat` does not accept, and `'%d'` of a negative number is not modelled.
- Dates.FormatDate: always pads the year to four digits. `strftime('%Y')` on glibc prints years below 1000 without padding, which a git commit date does not hit in practice.
- Reports.ShowRow: states only the printed line's length; what the line holds is stated through its reader, `Reports.ReadShowRow`. The reader needs a report name without tabs, since a tab in the file name would shift the cells.
