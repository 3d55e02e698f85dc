/** `parse_pr_summary` without its console output: from the lines of one
    report to the row it prints, the reason it skips the report, or the
    reason the program stops. The git lookup `commit_date` is a parameter. */
module Reports {
  import opened Wrappers
  import opened Text
  import opened Dates
  import opened Summaries
  import opened Refs

  /** Why the program stops on a report instead of skipping it: `parse_refs`
      exits on a report of fewer than six lines, indexing the second ref of a
      one-ref range raises `IndexError`, `commit_date` exits when git gives no
      date for a hash, and `parse_summary` raises on a missing or non-numeric
      count. */
  datatype Abort =
    | HeaderTooShort(count: nat)
    | RangeTooShort(range: seq<string>)
    | NoCommitDate(hash: string)
    | SummaryRaised(error: SummaryError)

  /** What one printed row shows: the report's name, its counts, and the
      commit dates of the first two refs of each range. */
  datatype Row = Row(prefix: string, summary: Summary, up: (Date, Date), down: (Date, Date))

  datatype Outcome = Printed(row: Row) | Skipped | Aborted(reason: Abort)

  /** `commit_date(hash, repo)` with the repository fixed: `dateOf` gives the
      date git reports for a hash, `None` being its exit. */
  function CommitDate(dateOf: string -> Option<Date>, hash: string): (r: Result<Date, Abort>)
    ensures r.Success? <==> dateOf(hash).Some?
    ensures r.Success? ==> Some(r.value) == dateOf(hash)
    ensures r.Failure? ==> r.error == NoCommitDate(hash)
  {
    match dateOf(hash)
    case None => Failure(NoCommitDate(hash))
    case Some(d) => Success(d)
  }

  /** The commit dates of a range's first two refs, in the order Python
      evaluates the arguments of `fmt_date_range`: the first ref's date, then
      the index of the second ref, then its date. */
  function RangeDates(range: seq<string>, hashes: map<string, string>, dateOf: string -> Option<Date>)
    : (r: Result<(Date, Date), Abort>)
    requires |range| >= 1 && forall ref :: ref in range ==> ref in hashes
    ensures r.Success? <==> |range| >= 2 && dateOf(hashes[range[0]]).Some? && dateOf(hashes[range[1]]).Some?
    ensures dateOf(hashes[range[0]]).None? ==> r == Failure(NoCommitDate(hashes[range[0]]))
    ensures r.Failure? ==> r.error.NoCommitDate? || r.error == RangeTooShort(range)
    ensures r.Failure? && r.error.NoCommitDate? ==> dateOf(r.error.hash).None?
    ensures |range| < 2 && dateOf(hashes[range[0]]).Some? ==> r == Failure(RangeTooShort(range))
    ensures |range| >= 2 && dateOf(hashes[range[0]]).Some? && dateOf(hashes[range[1]]).None? ==>
              r == Failure(NoCommitDate(hashes[range[1]]))
    ensures r.Success? ==> Some(r.value.0) == dateOf(hashes[range[0]]) && Some(r.value.1) == dateOf(hashes[range[1]])
  {
    var start :- CommitDate(dateOf, hashes[range[0]]);
    if |range| < 2 then Failure(RangeTooShort(range))
    else
      var end :- CommitDate(dateOf, hashes[range[1]]);
      Success((start, end))
  }

  /** The date `dateOf` gives for the hash of `ref`. */
  function DateOfRef(ref: string, hashes: map<string, string>, dateOf: string -> Option<Date>): Option<Date>
    requires ref in hashes
  {
    dateOf(hashes[ref])
  }

  /** Both ranges have at least two refs, and the first two of each have
      commit dates. */
  predicate RangesDated(refs: Refs, dateOf: string -> Option<Date>)
    requires forall ref :: ref in refs.upstream + refs.downstream ==> ref in refs.hashes
  {
    && |refs.upstream| >= 2 && |refs.downstream| >= 2
    && DateOfRef(refs.upstream[0], refs.hashes, dateOf).Some?
    && DateOfRef(refs.upstream[1], refs.hashes, dateOf).Some?
    && DateOfRef(refs.downstream[0], refs.hashes, dateOf).Some?
    && DateOfRef(refs.downstream[1], refs.hashes, dateOf).Some?
  }

  /** The row for a header's refs and a summary block: the block's summary,
      and the commit dates of the first two refs of each range. */
  predicate RowFor(prefix: string, refs: Refs, block: seq<string>, dateOf: string -> Option<Date>, row: Row)
    requires forall ref :: ref in refs.upstream + refs.downstream ==> ref in refs.hashes
    requires RangesDated(refs, dateOf)
  {
    && row.prefix == prefix
    && Success(row.summary) == ParseSummary(block)
    && Some(row.up.0) == DateOfRef(refs.upstream[0], refs.hashes, dateOf)
    && Some(row.up.1) == DateOfRef(refs.upstream[1], refs.hashes, dateOf)
    && Some(row.down.0) == DateOfRef(refs.downstream[0], refs.hashes, dateOf)
    && Some(row.down.1) == DateOfRef(refs.downstream[1], refs.hashes, dateOf)
  }

  /** Everything a report needs for a row: a well-formed header in its first
      six lines, ranges of at least two refs whose first two have commit
      dates, and a summary in its last six lines. */
  predicate Condensable(lines: seq<string>, dateOf: string -> Option<Date>) {
    && ParseRefs(Take(lines, 6)).Success?
    && RangesDated(ParseRefs(Take(lines, 6)).value, dateOf)
    && ParseSummary(Last(lines, 6)).Success?
  }

  /** The row of a condensable report. */
  predicate RowOf(prefix: string, lines: seq<string>, dateOf: string -> Option<Date>, row: Row)
    requires Condensable(lines, dateOf)
  {
    RowFor(prefix, ParseRefs(Take(lines, 6)).value, Last(lines, 6), dateOf, row)
  }

  /** `parse_pr_summary(prefix, lines, repo)`. A report of fewer than six
      lines stops the program and one whose header is malformed is skipped.
      The ranges are dated before the summary is read, so a range that cannot
      be dated stops the program whatever the last six lines hold; once both
      are dated, a report whose last six lines are not a summary block is
      skipped. A row is printed exactly when the report is condensable, and it
      holds the report's summary and the commit dates of both ranges. */
  function ParsePrSummary(prefix: string, lines: seq<string>, dateOf: string -> Option<Date>): (r: Outcome)
    ensures r == Aborted(HeaderTooShort(|lines|)) <==> |lines| < 6
    ensures |lines| >= 6 && ParseRefs(Take(lines, 6)).Failure? ==> r == Skipped
    ensures r == Skipped ==> |lines| >= 6 && (ParseRefs(Take(lines, 6)).Failure?
                                              || ParseSummary(Last(lines, 6)) == Failure(NotASummary))
    ensures r.Printed? <==> Condensable(lines, dateOf)
    ensures r.Printed? ==> RowOf(prefix, lines, dateOf, r.row)
    ensures r.Aborted? && r.reason.SummaryRaised? ==>
              !r.reason.error.MissingLine? && ParseSummary(Last(lines, 6)) == Failure(r.reason.error)
    ensures r.Aborted? && r.reason.NoCommitDate? ==> dateOf(r.reason.hash).None?
    ensures |lines| >= 6 && ParseRefs(Take(lines, 6)).Success? && !RangesDated(ParseRefs(Take(lines, 6)).value, dateOf) ==>
              r.Aborted? && (r.reason.NoCommitDate? || r.reason.RangeTooShort?)
    ensures |lines| >= 6 && ParseRefs(Take(lines, 6)).Success? && RangesDated(ParseRefs(Take(lines, 6)).value, dateOf) ==>
              (r == Skipped <==> ParseSummary(Last(lines, 6)) == Failure(NotASummary))
  {
    match ParseRefs(Take(lines, 6))
    case Failure(WrongLineCount(n)) => Aborted(HeaderTooShort(n))
    case Failure(_) => Skipped
    case Success(refs) =>
      if refs.upstream == [] || refs.downstream == [] || refs.hashes == map[] then Skipped
      else Condense(prefix, refs, Last(lines, 6), dateOf)
  }

  /** Why a report with a good header stops the program: the upstream range
      is dated first and its failure is the reason, then the downstream
      range; once both are dated, a summary that raises is the reason. */
  lemma {:induction false} ParsePrSummaryAborts(prefix: string, lines: seq<string>, dateOf: string -> Option<Date>)
    requires |lines| >= 6 && ParseRefs(Take(lines, 6)).Success?
    ensures var refs := ParseRefs(Take(lines, 6)).value;
            && (RangeDates(refs.upstream, refs.hashes, dateOf).Failure? ==>
                  ParsePrSummary(prefix, lines, dateOf) == Aborted(RangeDates(refs.upstream, refs.hashes, dateOf).error))
            && (RangeDates(refs.upstream, refs.hashes, dateOf).Success?
                && RangeDates(refs.downstream, refs.hashes, dateOf).Failure? ==>
                  ParsePrSummary(prefix, lines, dateOf) == Aborted(RangeDates(refs.downstream, refs.hashes, dateOf).error))
    ensures RangesDated(ParseRefs(Take(lines, 6)).value, dateOf)
            && ParseSummary(Last(lines, 6)).Failure? && ParseSummary(Last(lines, 6)) != Failure(NotASummary) ==>
              ParsePrSummary(prefix, lines, dateOf) == Aborted(SummaryRaised(ParseSummary(Last(lines, 6)).error))
  {
    var refs := ParseRefs(Take(lines, 6)).value;
    assert ParsePrSummary(prefix, lines, dateOf) == Condense(prefix, refs, Last(lines, 6), dateOf);
  }

  /** The rest of `parse_pr_summary` once the header is read: the two date
      ranges, then the summary of the last six lines. */
  function Condense(prefix: string, refs: Refs, block: seq<string>, dateOf: string -> Option<Date>): (r: Outcome)
    requires |refs.upstream| >= 1 && |refs.downstream| >= 1
    requires forall ref :: ref in refs.upstream + refs.downstream ==> ref in refs.hashes
    ensures !(r.Aborted? && r.reason.HeaderTooShort?)
    ensures r == Skipped ==> ParseSummary(block) == Failure(NotASummary)
    ensures r.Printed? <==> RangesDated(refs, dateOf) && ParseSummary(block).Success?
    ensures r.Printed? ==> RowFor(prefix, refs, block, dateOf, r.row)
    ensures r.Aborted? && r.reason.SummaryRaised? ==>
              ParseSummary(block) == Failure(r.reason.error) && (|block| >= 6 ==> !r.reason.error.MissingLine?)
    ensures r.Aborted? && r.reason.NoCommitDate? ==> dateOf(r.reason.hash).None?
    ensures !RangesDated(refs, dateOf) ==> r.Aborted? && (r.reason.NoCommitDate? || r.reason.RangeTooShort?)
    ensures RangesDated(refs, dateOf) ==> (r == Skipped <==> ParseSummary(block) == Failure(NotASummary))
    ensures RangesDated(refs, dateOf) && ParseSummary(block).Failure? && ParseSummary(block) != Failure(NotASummary) ==>
              r == Aborted(SummaryRaised(ParseSummary(block).error))
    ensures RangeDates(refs.upstream, refs.hashes, dateOf).Failure? ==>
              r == Aborted(RangeDates(refs.upstream, refs.hashes, dateOf).error)
    ensures RangeDates(refs.upstream, refs.hashes, dateOf).Success? && RangeDates(refs.downstream, refs.hashes, dateOf).Failure? ==>
              r == Aborted(RangeDates(refs.downstream, refs.hashes, dateOf).error)
  {
    match DatedRanges(refs, dateOf)
    case Failure(a) => Aborted(a)
    case Success((up, down)) => SummaryOutcome(prefix, up, down, block)
  }

  /** The dates of both ranges, upstream first: the first range that cannot
      be dated gives the reason. */
  function DatedRanges(refs: Refs, dateOf: string -> Option<Date>): (r: Result<((Date, Date), (Date, Date)), Abort>)
    requires |refs.upstream| >= 1 && |refs.downstream| >= 1
    requires forall ref :: ref in refs.upstream + refs.downstream ==> ref in refs.hashes
    ensures r.Success? <==> RangesDated(refs, dateOf)
    ensures r.Success? ==> && Some(r.value.0.0) == DateOfRef(refs.upstream[0], refs.hashes, dateOf)
                           && Some(r.value.0.1) == DateOfRef(refs.upstream[1], refs.hashes, dateOf)
                           && Some(r.value.1.0) == DateOfRef(refs.downstream[0], refs.hashes, dateOf)
                           && Some(r.value.1.1) == DateOfRef(refs.downstream[1], refs.hashes, dateOf)
    ensures r.Failure? ==> r.error.NoCommitDate? || r.error.RangeTooShort?
    ensures r.Failure? && r.error.NoCommitDate? ==> dateOf(r.error.hash).None?
    ensures RangeDates(refs.upstream, refs.hashes, dateOf).Failure? ==>
              r == Failure(RangeDates(refs.upstream, refs.hashes, dateOf).error)
    ensures RangeDates(refs.upstream, refs.hashes, dateOf).Success? && RangeDates(refs.downstream, refs.hashes, dateOf).Failure? ==>
              r == Failure(RangeDates(refs.downstream, refs.hashes, dateOf).error)
  {
    assert forall ref :: ref in refs.upstream ==> ref in refs.upstream + refs.downstream;
    assert forall ref :: ref in refs.downstream ==> ref in refs.upstream + refs.downstream;
    var up :- RangeDates(refs.upstream, refs.hashes, dateOf);
    var down :- RangeDates(refs.downstream, refs.hashes, dateOf);
    Success((up, down))
  }

  /** The last step of `parse_pr_summary`, once both ranges are dated: a block
      that is no summary skips the report, a broken summary aborts it, and a
      readable one is printed with the dates. */
  function SummaryOutcome(prefix: string, up: (Date, Date), down: (Date, Date), block: seq<string>): (r: Outcome)
    ensures r == Skipped <==> ParseSummary(block) == Failure(NotASummary)
    ensures r.Printed? <==> ParseSummary(block).Success?
    ensures r.Printed? ==> r.row == Row(prefix, ParseSummary(block).value, up, down)
    ensures r.Aborted? ==> r.reason.SummaryRaised? && ParseSummary(block) == Failure(r.reason.error)
    ensures r.Aborted? && |block| >= 6 ==> !r.reason.error.MissingLine?
  {
    ParseSummaryMissingLine(block);
    match ParseSummary(block)
    case Failure(NotASummary) => Skipped
    case Failure(e) => Aborted(SummaryRaised(e))
    case Success(s) => Printed(Row(prefix, s, up, down))
  }

  /* ---------------------------------------------------------------------- */
  /* the printed row                                                         */
  /* ---------------------------------------------------------------------- */

  /** The note after the counts: `# up: <range> dn: <range>`. */
  function RangeNote(up: (Date, Date), down: (Date, Date)): (r: string)
    ensures |r| == 55 && r[..6] == "# up: " && r[28..33] == " dn: "
    ensures r[6..28] == FormatDateRange(up.0, up.1) && r[33..] == FormatDateRange(down.0, down.1)
    ensures Lacks(r, '\t')
  {
    var u := FormatDateRange(up.0, up.1);
    var d := FormatDateRange(down.0, down.1);
    NoteLayout(u, d);
    "# up: " + u + " dn: " + d
  }

  /** Where the two ranges stand in the note, and that it holds no tab. */
  lemma {:induction false} NoteLayout(u: string, d: string)
    requires |u| == 22 && |d| == 22
    requires forall i :: 0 <= i < |u| ==> IsDigit(u[i]) || u[i] == '-' || u[i] == '.'
    requires forall i :: 0 <= i < |d| ==> IsDigit(d[i]) || d[i] == '-' || d[i] == '.'
    ensures var r := "# up: " + u + " dn: " + d;
            && |r| == 55 && r[..6] == "# up: " && r[6..28] == u && r[28..33] == " dn: " && r[33..] == d
            && Lacks(r, '\t')
  {
    var r := "# up: " + u + " dn: " + d;
    assert r[..6] == "# up: " && r[6..28] == u && r[28..33] == " dn: " && r[33..] == d;
    assert Lacks("# up: ", '\t') && Lacks(" dn: ", '\t') && Lacks(u, '\t') && Lacks(d, '\t');
    LacksConcat("# up: ", u, '\t');
    LacksConcat("# up: " + u, " dn: ", '\t');
    LacksConcat("# up: " + u + " dn: ", d, '\t');
  }

  /** The line `parse_pr_summary` prints: `'%s\t%s\t# up: %s dn: %s' %
      (prefix, summary, up, dn)`. */
  function ShowRow(row: Row): (r: string)
    ensures |r| == |row.prefix| + |SummaryRow(row.summary)| + 57
  {
    row.prefix + "\t" + (SummaryRow(row.summary) + "\t" + RangeNote(row.up, row.down))
  }

  /** Reads a printed line back: eight tab-separated cells, the name, six
      counts and the note with its two date ranges. */
  function ReadRow(line: string): (r: Option<Row>)
    ensures r.Some? ==> |SplitOn(line, "\t")| == 8 && r.value.prefix == SplitOn(line, "\t")[0]
  {
    var cells := SplitOn(line, "\t");
    if |cells| != 8 then None
    else
      match (ParseCounts(cells[1..7]), ReadNote(cells[7]))
      case (Some(s), Some((up, down))) => Some(Row(cells[0], s, up, down))
      case _ => None
  }

  /** Reads the note after the counts back into its two date ranges. */
  function ReadNote(note: string): (r: Option<((Date, Date), (Date, Date))>)
    ensures r.Some? ==> |note| == 55 && note[..6] == "# up: " && note[28..33] == " dn: "
  {
    if |note| != 55 || note[..6] != "# up: " || note[28..33] != " dn: " then None
    else
      match (ParseDateRange(note[6..28]), ParseDateRange(note[33..]))
      case (Some(up), Some(down)) => Some((up, down))
      case _ => None
  }

  /** The note of two ranges reads back as those ranges. */
  lemma {:induction false} ReadRangeNote(up: (Date, Date), down: (Date, Date))
    ensures ReadNote(RangeNote(up, down)) == Some((up, down))
  {
    ParseFormatDateRange(up.0, up.1);
    ParseFormatDateRange(down.0, down.1);
  }

  /** A printed line loses nothing when the report's name holds no tab: it
      reads back as the row it shows. */
  lemma {:induction false} ReadShowRow(row: Row)
    requires Lacks(row.prefix, '\t')
    ensures ReadRow(ShowRow(row)) == Some(row)
  {
    var counts := ShowAll(Columns(row.summary));
    var note := RangeNote(row.up, row.down);
    ShowRowCells(row);
    ParseShownCounts(row.summary);
    ReadRangeNote(row.up, row.down);
    ReadCells(ShowRow(row), row.prefix, counts, note, row);
  }

  /** A printed row splits at its tabs into the name, the six counts and the note. */
  lemma {:induction false} ShowRowCells(row: Row)
    requires Lacks(row.prefix, '\t')
    ensures SplitOn(ShowRow(row), "\t") == [row.prefix] + ShowAll(Columns(row.summary)) + [RangeNote(row.up, row.down)]
  {
    CountCells(row.summary);
    SplitRow(row.prefix, ShowAll(Columns(row.summary)), RangeNote(row.up, row.down));
  }

  /** The counts of a summary row are six tab-free decimal cells joined by tabs. */
  lemma {:induction false} CountCells(s: Summary)
    ensures var cells := ShowAll(Columns(s));
            && |cells| == 6 && SummaryRow(s) == JoinWith(cells, "\t")
            && forall k :: 0 <= k < |cells| ==> Lacks(cells[k], '\t')
  {
    var cells := ShowAll(Columns(s));
    forall k | 0 <= k < |cells|
      ensures Lacks(cells[k], '\t')
    {
    }
  }

  /** A line of a name, six counts and a note with two date ranges reads
      back as the row they show. */
  lemma {:induction false} ReadCells(line: string, prefix: string, counts: seq<string>, note: string, row: Row)
    requires SplitOn(line, "\t") == [prefix] + counts + [note]
    requires row.prefix == prefix && ParseCounts(counts) == Some(row.summary)
    requires ReadNote(note) == Some((row.up, row.down))
    ensures ReadRow(line) == Some(row)
  {
    var cells := SplitOn(line, "\t");
    assert cells[0] == prefix && cells[1..7] == counts && cells[7] == note;
  }

  /** A name, tab-joined cells and a note, none holding a tab, split on tabs
      into the name, the cells and the note. */
  lemma {:induction false} SplitRow(prefix: string, cells: seq<string>, note: string)
    requires |cells| >= 1 && Lacks(prefix, '\t') && Lacks(note, '\t')
    requires forall k :: 0 <= k < |cells| ==> Lacks(cells[k], '\t')
    ensures SplitOn(prefix + "\t" + (JoinWith(cells, "\t") + "\t" + note), "\t") == [prefix] + cells + [note]
  {
    var parts := [prefix] + cells + [note];
    JoinAppend(cells, [note], "\t");
    JoinAppend([prefix], cells + [note], "\t");
    assert [prefix] + (cells + [note]) == parts;
    forall k | 0 <= k < |parts|
      ensures CleanBefore(parts[k], "\t")
    {
      if k == 0 {
        CleanWithoutChar(prefix, "\t");
      } else if k <= |cells| {
        assert parts[k] == cells[k - 1];
        CleanWithoutChar(cells[k - 1], "\t");
      } else {
        CleanWithoutChar(note, "\t");
      }
    }
    SplitOfJoin(parts, "\t");
  }

  /* ---------------------------------------------------------------------- */
  /* reports in the documented layout                                        */
  /* ---------------------------------------------------------------------- */

  /** Only the first six and the last six lines of a report are read. */
  lemma {:induction false} OnlyEndsRead(prefix: string, a: seq<string>, b: seq<string>, dateOf: string -> Option<Date>)
    requires Take(a, 6) == Take(b, 6) && Last(a, 6) == Last(b, 6)
    ensures ParsePrSummary(prefix, a, dateOf) == ParsePrSummary(prefix, b, dateOf)
  {
  }

  /** No report of fewer than twelve lines is printed: the last six lines
      would reach into the header, whose comment lines are not the summary
      banner. */
  lemma {:induction false} ShortReportNotPrinted(prefix: string, lines: seq<string>, dateOf: string -> Option<Date>)
    requires |lines| < 12
    ensures !ParsePrSummary(prefix, lines, dateOf).Printed?
  {
    if |lines| >= 6 && ParseRefs(Take(lines, 6)).Success? {
      HeaderLinesAreComments(Take(lines, 6));
      SummaryOverlapsHeader(lines);
    }
  }

  /** When the report is shorter than twelve lines, the last six lines start
      inside the six comment lines of the header, so they do not start with
      the banner. */
  lemma {:induction false} SummaryOverlapsHeader(lines: seq<string>)
    requires 6 <= |lines| < 12
    requires forall k :: 0 <= k < 6 ==> StartsWith(Take(lines, 6)[k], "# ")
    ensures Take(Last(lines, 6), 3) != Banner
  {
    var first := |lines| - 6;
    assert StartsWith(Take(lines, 6)[first], "# ");
    assert Last(lines, 6)[0] == Take(lines, 6)[first];
    BannerIsNoComment();
    assert Take(Last(lines, 6), 3)[0] != Banner[0];
  }

  lemma {:induction false} BannerIsNoComment()
    ensures !StartsWith(Banner[0], "# ")
  {
    assert Banner[0][0] == 'S';
  }

  /** The ref has a hash among the entries, and the hash a commit date. */
  predicate Dated(ref: string, es: seq<Entry>, dateOf: string -> Option<Date>) {
    ref in Assign(map[], es) && dateOf(Assign(map[], es)[ref]).Some?
  }

  function RefDate(ref: string, es: seq<Entry>, dateOf: string -> Option<Date>): Date
    requires Dated(ref, es, dateOf)
  {
    dateOf(Assign(map[], es)[ref]).value
  }

  /** A report in the documented layout, a rendered header, any lines of
      tracking output, then the summary block, is condensed into the row of
      its summary and of the commit dates of the first two refs of each
      range. */
  lemma {:induction false} CondenseReport(prefix: string, upstream: seq<string>, downstream: seq<string>, es: seq<Entry>,
                       middle: seq<string>, s: Summary, dateOf: string -> Option<Date>)
    requires |upstream| >= 2 && |downstream| >= 2 && |es| == 4
    requires forall k :: 0 <= k < |upstream| ==> IsRefName(upstream[k])
    requires forall k :: 0 <= k < |downstream| ==> IsRefName(downstream[k])
    requires forall k :: 0 <= k < 4 ==> Plain(es[k].key) && Plain(es[k].value)
    requires forall ref :: ref in upstream + downstream ==> exists k :: 0 <= k < 4 && es[k].key == ref
    requires Dated(upstream[0], es, dateOf) && Dated(upstream[1], es, dateOf)
    requires Dated(downstream[0], es, dateOf) && Dated(downstream[1], es, dateOf)
    ensures ParsePrSummary(prefix, RenderRefs(upstream, downstream, es) + middle + ReportLines(s), dateOf)
            == Printed(Row(prefix, s,
                           (RefDate(upstream[0], es, dateOf), RefDate(upstream[1], es, dateOf)),
                           (RefDate(downstream[0], es, dateOf), RefDate(downstream[1], es, dateOf))))
  {
    var header := RenderRefs(upstream, downstream, es);
    var lines := header + middle + ReportLines(s);
    assert Take(lines, 6) == header;
    assert Last(lines, 6) == ReportLines(s);
    ParseRenderedRefs(upstream, downstream, es);
    ParseReportLines(s);
  }
}
