/** The `SUMMARY` block at the end of a backport-tracking report: its six
    counts, how `parse_summary` reads them from fixed token positions, and how
    `Summary.__str__` prints them as one tab-separated row. */
module Summaries {
  import opened Wrappers
  import opened Text

  /** The six counts of a report: downstream commits, how many of them were
      back-ported, follow-up fixes and mentions found upstream, and how many of
      those are not applied downstream. */
  datatype Summary = Summary(
    commits: nat,
    backported: nat,
    fixed: nat,
    fixedUnapplied: nat,
    mentioned: nat,
    mentionedUnapplied: nat)

  /** Why `parse_summary` gives no summary: `NotASummary` is its `None`
      result; the others are the `IndexError` and `ValueError` it raises. */
  datatype SummaryError =
    | NotASummary
    | MissingLine(line: nat)
    | MissingToken(line: nat, index: nat)
    | NotANumber(line: nat, index: nat)

  /** The three lines a summary block starts with, as `readlines()` gives them. */
  const Banner: seq<string> := ["SUMMARY\n", "=======\n", "\n"]

  /* ---------------------------------------------------------------------- */
  /* Summary.__str__                                                         */
  /* ---------------------------------------------------------------------- */

  /** The counts in the column order of the printed row. */
  function Columns(s: Summary): seq<nat> {
    [s.commits, s.backported, s.fixed, s.fixedUnapplied, s.mentioned, s.mentionedUnapplied]
  }

  function ShowAll(ns: seq<nat>): (r: seq<string>)
    ensures |r| == |ns|
    ensures forall k :: 0 <= k < |ns| ==> r[k] == ShowNat(ns[k])
  {
    if ns == [] then [] else [ShowNat(ns[0])] + ShowAll(ns[1..])
  }

  /** `str(summary)`: the six counts in decimal, separated by single tabs.
      Splitting the row on tabs gives back exactly the six numbers, in the
      order commits, back-ported, fixes, unapplied fixes, mentions, unapplied
      mentions. */
  function SummaryRow(s: Summary): (r: string)
    ensures SplitOn(r, "\t") == ShowAll(Columns(s))
  {
    var cells := ShowAll(Columns(s));
    forall k | 0 <= k < |cells|
      ensures CleanBefore(cells[k], "\t")
    {
      CleanWithoutChar(cells[k], "\t");
    }
    SplitOfJoin(cells, "\t");
    JoinWith(cells, "\t")
  }

  /** Reads six decimal cells, in column order, back into a summary. */
  function ParseCounts(cells: seq<string>): (r: Option<Summary>)
    ensures r.Some? ==> |cells| == 6 && forall k :: 0 <= k < 6 ==> ParseNat(cells[k]) == Some(Columns(r.value)[k])
  {
    if |cells| != 6 then None
    else
      match (ParseNat(cells[0]), ParseNat(cells[1]), ParseNat(cells[2]),
             ParseNat(cells[3]), ParseNat(cells[4]), ParseNat(cells[5]))
      case (Some(a), Some(b), Some(c), Some(d), Some(e), Some(f)) =>
        Some(Summary(a, b, c, d, e, f))
      case _ => None
  }

  /** Reads a printed row back into a summary. */
  function ParseSummaryRow(row: string): (r: Option<Summary>)
    ensures r.Some? ==> |SplitOn(row, "\t")| == 6
  {
    ParseCounts(SplitOn(row, "\t"))
  }

  /** The printed cells read back as the summary they show. */
  lemma {:induction false} ParseShownCounts(s: Summary)
    ensures ParseCounts(ShowAll(Columns(s))) == Some(s)
  {
    ParseShowNat(s.commits);
    ParseShowNat(s.backported);
    ParseShowNat(s.fixed);
    ParseShowNat(s.fixedUnapplied);
    ParseShowNat(s.mentioned);
    ParseShowNat(s.mentionedUnapplied);
  }

  /** The printed row loses nothing: it reads back as the same summary. */
  lemma {:induction false} SummaryRowRoundTrip(s: Summary)
    ensures ParseSummaryRow(SummaryRow(s)) == Some(s)
  {
    ParseShownCounts(s);
  }

  /* ---------------------------------------------------------------------- */
  /* parse_summary                                                           */
  /* ---------------------------------------------------------------------- */

  /** `int(lines[line].split()[index])`, or with the token's first character
      dropped (`[1:]`) when `dropFirst` holds, failing as Python would. */
  function Count(lines: seq<string>, line: nat, index: nat, dropFirst: bool): (r: Result<nat, SummaryError>)
    ensures r == Failure(MissingLine(line)) <==> line >= |lines|
    ensures r == Failure(MissingToken(line, index)) <==> line < |lines| && index >= |Words(lines[line])|
    ensures r.Failure? ==> r.error == MissingLine(line) || r.error == MissingToken(line, index)
                           || r.error == NotANumber(line, index)
    ensures r.Success? && !dropFirst ==> NumberAt(lines[line], index, r.value)
    ensures r.Success? && dropFirst ==> BracketedNumberAt(lines[line], index, r.value)
    ensures r.Failure? && r.error.NotANumber? ==>
              && line < |lines| && index < |Words(lines[line])|
              && ParseNat(if dropFirst then Words(lines[line])[index][1..] else Words(lines[line])[index]).None?
  {
    if line >= |lines| then Failure(MissingLine(line))
    else
      var tokens := Words(lines[line]);
      if index >= |tokens| then Failure(MissingToken(line, index))
      else
        var token := if dropFirst then tokens[index][1..] else tokens[index];
        match ParseNat(token)
        case None => Failure(NotANumber(line, index))
        case Some(n) => Success(n)
  }

  /** The `index`-th whitespace token of `line` is the number `n`. */
  predicate NumberAt(line: string, index: nat, n: nat) {
    index < |Words(line)| && ParseNat(Words(line)[index]) == Some(n)
  }

  /** The `index`-th whitespace token of `line` is one character (the `(` of
      `(<P> are not applied downstream)`) followed by the number `n`. */
  predicate BracketedNumberAt(line: string, index: nat, n: nat) {
    index < |Words(line)| && ParseNat(Words(line)[index][1..]) == Some(n)
  }

  /** All six counts can be read from the lines after the banner. */
  predicate CountsReadable(lines: seq<string>, s: Summary) {
    && |lines| >= 6
    && NumberAt(lines[3], 3, s.commits)
    && NumberAt(lines[3], 0, s.backported)
    && NumberAt(lines[4], 0, s.fixed)
    && BracketedNumberAt(lines[4], 4, s.fixedUnapplied)
    && NumberAt(lines[5], 0, s.mentioned)
    && BracketedNumberAt(lines[5], 4, s.mentionedUnapplied)
  }

  /** `parse_summary(lines)`. It gives `None` exactly when the first three
      lines are not the banner, whatever follows them. A summary it returns
      was read from the fixed token positions: line 3 tokens 3 and 0, lines 4
      and 5 token 0 and token 4 without its first character. */
  function ParseSummary(lines: seq<string>): (r: Result<Summary, SummaryError>)
    ensures r == Failure(NotASummary) <==> Take(lines, 3) != Banner
    ensures r.Success? ==> CountsReadable(lines, r.value)
  {
    if Take(lines, 3) != Banner then Failure(NotASummary)
    else
      var commits :- Count(lines, 3, 3, false);
      var backported :- Count(lines, 3, 0, false);
      var fixed :- Count(lines, 4, 0, false);
      var fixedUnapplied :- Count(lines, 4, 4, true);
      var mentioned :- Count(lines, 5, 0, false);
      var mentionedUnapplied :- Count(lines, 5, 4, true);
      Success(Summary(commits, backported, fixed, fixedUnapplied, mentioned, mentionedUnapplied))
  }

  /** Conversely, a block that starts with the banner and has all six counts
      in place parses to exactly those counts. */
  lemma {:induction false} ParseSummaryComplete(lines: seq<string>, s: Summary)
    requires Take(lines, 3) == Banner
    requires CountsReadable(lines, s)
    ensures ParseSummary(lines) == Success(s)
  {
  }

  /** A line is missing only when the block is shorter than six lines. */
  lemma {:induction false} ParseSummaryMissingLine(lines: seq<string>)
    ensures ParseSummary(lines).Failure? && ParseSummary(lines).error.MissingLine?
            ==> 3 <= ParseSummary(lines).error.line && |lines| <= ParseSummary(lines).error.line < 6
  {
  }

  /** Only the first six lines are looked at. */
  lemma {:induction false} ParseSummaryIgnoresRest(lines: seq<string>, more: seq<string>)
    requires |lines| >= 6
    ensures ParseSummary(lines + more) == ParseSummary(lines)
  {
    var all := lines + more;
    assert Take(all, 3) == Take(lines, 3);
    CountSameLine(all, lines, 3, 3, false);
    CountSameLine(all, lines, 3, 0, false);
    CountSameLine(all, lines, 4, 0, false);
    CountSameLine(all, lines, 4, 4, true);
    CountSameLine(all, lines, 5, 0, false);
    CountSameLine(all, lines, 5, 4, true);
  }

  /** A count is read from its own line only. */
  lemma {:induction false} CountSameLine(a: seq<string>, b: seq<string>, line: nat, index: nat, dropFirst: bool)
    requires line < |a| && line < |b| && a[line] == b[line]
    ensures Count(a, line, index, dropFirst) == Count(b, line, index, dropFirst)
  {
  }

  /* ---------------------------------------------------------------------- */
  /* the report layout                                                       */
  /* ---------------------------------------------------------------------- */

  /** The summary block a report ends with:

        SUMMARY
        =======

        <N> of the <M> downstream commits are merged in the upstream.
        <O> followup fixes found (<P> are not applied downstream)
        <Q> followup mentions found (<R> are not applied downstream)
   */
  function ReportLines(s: Summary): (r: seq<string>)
    ensures |r| == 6
  {
    Banner + [
      JoinWith(CommitsWords(s.backported, s.commits), " ") + "\n",
      JoinWith(FollowupWords("fixes", s.fixed, s.fixedUnapplied), " ") + "\n",
      JoinWith(FollowupWords("mentions", s.mentioned, s.mentionedUnapplied), " ") + "\n"]
  }

  /** `<N> of the <M> downstream commits are merged in the upstream.` */
  function CommitsWords(merged: nat, commits: nat): (r: seq<string>)
    ensures |r| == 11 && r[0] == ShowNat(merged) && r[3] == ShowNat(commits)
  {
    [ShowNat(merged), "of", "the", ShowNat(commits), "downstream",
     "commits", "are", "merged", "in", "the", "upstream."]
  }

  /** `<O> followup <what> found (<P> are not applied downstream)` */
  function FollowupWords(what: string, found: nat, unapplied: nat): (r: seq<string>)
    ensures |r| == 9 && r[0] == ShowNat(found) && r[4] == "(" + ShowNat(unapplied)
  {
    [ShowNat(found), "followup", what, "found", "(" + ShowNat(unapplied),
     "are", "not", "applied", "downstream)"]
  }

  /** A summary block in the report layout parses to the summary it shows. */
  lemma {:induction false} ParseReportLines(s: Summary)
    ensures ParseSummary(ReportLines(s)) == Success(s)
  {
    var lines := ReportLines(s);
    CommitsLineReadable(s.backported, s.commits);
    FollowupNounsPrintable();
    FollowupLineReadable("fixes", s.fixed, s.fixedUnapplied);
    FollowupLineReadable("mentions", s.mentioned, s.mentionedUnapplied);
    assert Take(lines, 3) == Banner;
    assert CountsReadable(lines, s);
    ParseSummaryComplete(lines, s);
  }

  /** The line of merged commits reads back as its two counts. */
  lemma {:induction false} CommitsLineReadable(merged: nat, commits: nat)
    ensures var line := JoinWith(CommitsWords(merged, commits), " ") + "\n";
            NumberAt(line, 3, commits) && NumberAt(line, 0, merged)
  {
    var ws := CommitsWords(merged, commits);
    assert Words(JoinWith(ws, " ") + "\n") == ws by {
      ReportWords(ws);
    }
    ParseShowNat(merged);
    ParseShowNat(commits);
  }

  lemma {:induction false} FollowupNounsPrintable()
    ensures Printable("fixes") && Printable("mentions")
  {
  }

  /** A line of follow-ups reads back as its count and, past the `(`, its
      unapplied count. */
  lemma {:induction false} FollowupLineReadable(what: string, found: nat, unapplied: nat)
    requires what != [] && Printable(what)
    ensures var line := JoinWith(FollowupWords(what, found, unapplied), " ") + "\n";
            NumberAt(line, 0, found) && BracketedNumberAt(line, 4, unapplied)
  {
    var ws := FollowupWords(what, found, unapplied);
    assert Words(JoinWith(ws, " ") + "\n") == ws by {
      ReportWords(ws);
    }
    assert ws[4][1..] == ShowNat(unapplied);
    ParseShowNat(found);
    ParseShowNat(unapplied);
  }

  /** A line of words splits back into those words, when every word is
      non-empty visible text. */
  lemma {:induction false} ReportWords(ws: seq<string>)
    requires forall k :: 0 <= k < |ws| ==> ws[k] != [] && Printable(ws[k])
    ensures Words(JoinWith(ws, " ") + "\n") == ws
  {
    forall k | 0 <= k < |ws|
      ensures NoSpace(ws[k])
    {
      PrintableNoSpace(ws[k]);
    }
    WordsOfJoin(ws, "\n");
  }
}
