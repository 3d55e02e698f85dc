/** The six-line reference header of a report and `parse_refs`, which reads
    it into the upstream and downstream ref ranges and the ref-to-hash map:

        # upstream: <ref1>..<ref2>
        # downstream: <ref3>..<ref4>
        # <ref1>: <hash of ref1>
        # <ref2>: <hash of ref2>
        # <ref3>: <hash of ref3>
        # <ref4>: <hash of ref4>
 */
module Refs {
  import opened Wrappers
  import opened Text

  /** The two fields of a header line, `key: value`. */
  datatype Entry = Entry(key: string, value: string)

  /** Why a header line is malformed. */
  datatype LineError =
    | NotAComment(line: nat)
    | BadFieldCount(line: nat, fields: nat)

  /** Why `parse_refs` gives no result. `WrongLineCount` is its `exit(1)`; the
      others are its `(None, None, None)` result. */
  datatype RefsError =
    | WrongLineCount(count: nat)
    | BadLine(reason: LineError)
    | HashNotFound(ref: string)

  /** What `parse_refs` returns on success. */
  datatype Refs = Refs(upstream: seq<string>, downstream: seq<string>, hashes: map<string, string>)

  predicate StartsWith(s: string, prefix: string) {
    |prefix| <= |s| && s[..|prefix|] == prefix
  }

  /* ---------------------------------------------------------------------- */
  /* one header line                                                         */
  /* ---------------------------------------------------------------------- */

  /** Checks line number `index` of the header: it must start with `# `, and
      the rest, stripped of surrounding whitespace, must split on `: ` into
      exactly two fields. On success the stripped rest is the key, `: `, and
      the value. */
  function RefLine(line: string, index: nat): (r: Result<Entry, LineError>)
    ensures r.Failure? ==> r.error.line == index
    ensures (r == Failure(NotAComment(index))) <==> !StartsWith(line, "# ")
    ensures r.Success? ==> StartsWith(line, "# ")
                           && Strip(line[2..]) == r.value.key + ": " + r.value.value
    ensures StartsWith(line, "# ") ==> (r.Success? <==> |SplitOn(Strip(line[2..]), ": ")| == 2)
    ensures r.Failure? && r.error.BadFieldCount? ==> r.error.fields == |SplitOn(Strip(line[2..]), ": ")|
    ensures r.Success? ==> SplitOn(Strip(line[2..]), ": ") == [r.value.key, r.value.value]
    ensures r.Success? ==> NoMatch(r.value.key, ": ") && NoMatch(r.value.value, ": ")
  {
    if !StartsWith(line, "# ") then Failure(NotAComment(index))
    else
      var fields := SplitOn(Strip(line[2..]), ": ");
      if |fields| != 2 then Failure(BadFieldCount(index, |fields|))
      else
        assert JoinWith(fields, ": ") == fields[0] + ": " + fields[1];
        Success(Entry(fields[0], fields[1]))
  }

  /* ---------------------------------------------------------------------- */
  /* parse_refs, as its loop runs                                            */
  /* ---------------------------------------------------------------------- */

  /** The check of every header line, in order. */
  function CheckLines(lines: seq<string>): (r: seq<Result<Entry, LineError>>)
    ensures |r| == |lines|
    ensures forall k :: 0 <= k < |lines| ==> r[k] == RefLine(lines[k], k)
  {
    seq(|lines|, k requires 0 <= k < |lines| => RefLine(lines[k], k))
  }

  /** The loop's variables: `upstream` and `downstream` start as `None`. */
  datatype Scan = Scan(upstream: Option<seq<string>>, downstream: Option<seq<string>>, hashes: map<string, string>)

  /** Python's truth value of a list that may be `None`. */
  predicate Truthy(o: Option<seq<string>>) {
    o.Some? && |o.value| > 0
  }

  /** The loop body once a line has been checked: the first line whose turn
      finds `upstream` false sets it, then likewise `downstream`, and every
      later line records its key and value in `hashes`. */
  function Step(st: Scan, e: Entry): (r: Scan)
    ensures r == st.(upstream := r.upstream) || r == st.(downstream := r.downstream) || r == st.(hashes := r.hashes)
    ensures r.upstream != st.upstream ==> !Truthy(st.upstream) && r.upstream == Some(SplitOn(e.value, ".."))
    ensures r.downstream != st.downstream ==> Truthy(st.upstream) && !Truthy(st.downstream)
                                              && r.downstream == Some(SplitOn(e.value, ".."))
    ensures r.hashes != st.hashes ==> Truthy(st.upstream) && Truthy(st.downstream)
    ensures Truthy(r.upstream)
    ensures Truthy(st.upstream) ==> Truthy(r.downstream)
    ensures Truthy(st.upstream) && Truthy(st.downstream) ==> r.hashes == st.hashes[e.key := e.value]
  {
    if !Truthy(st.upstream) then st.(upstream := Some(SplitOn(e.value, "..")))
    else if !Truthy(st.downstream) then st.(downstream := Some(SplitOn(e.value, "..")))
    else st.(hashes := st.hashes[e.key := e.value])
  }

  /** The loop over the checked lines from `i` on, stopping at the first
      malformed one. Since a split never yields an empty list, one line is
      enough to make `upstream` true, two to make `downstream` true, and a
      third line reaches `hashes`. */
  function ScanFrom(checked: seq<Result<Entry, LineError>>, i: nat, st: Scan): (r: Result<Scan, LineError>)
    requires i <= |checked|
    ensures r.Success? && (Truthy(st.upstream) || i < |checked|) ==> Truthy(r.value.upstream)
    ensures r.Success? && (Truthy(st.downstream) || (Truthy(st.upstream) && i < |checked|) || i + 1 < |checked|)
            ==> Truthy(r.value.downstream)
    ensures r.Success? && ((Truthy(st.upstream) && Truthy(st.downstream) && i < |checked|)
                           || (Truthy(st.upstream) && i + 1 < |checked|)
                           || i + 2 < |checked|)
            ==> r.value.hashes != map[]
    ensures r.Success? && st.hashes != map[] ==> r.value.hashes != map[]
    decreases |checked| - i
  {
    if i == |checked| then Success(st)
    else
      var e :- checked[i];
      var next := Step(st, e);
      assert Truthy(next.upstream);
      assert Truthy(st.upstream) ==> next.upstream == st.upstream && Truthy(next.downstream);
      assert Truthy(st.upstream) && Truthy(st.downstream) ==> e.key in next.hashes;
      assert st.hashes != map[] ==> next.hashes != map[] by {
        if st.hashes != map[] {
          var k :| k in st.hashes;
          assert k in next.hashes;
        }
      }
      ScanFrom(checked, i + 1, next)
  }

  /** The first ref of `refs` that has no hash. */
  function FirstMissing(refs: seq<string>, hashes: map<string, string>): (r: Option<string>)
    ensures r.None? <==> forall k :: 0 <= k < |refs| ==> refs[k] in hashes
    ensures r.Some? ==> r.value in refs && r.value !in hashes
    ensures r.Some? ==> exists i :: 0 <= i < |refs| && refs[i] == r.value && forall k :: 0 <= k < i ==> refs[k] in hashes
  {
    if refs == [] then None
    else if refs[0] !in hashes then Some(refs[0])
    else
      var r := FirstMissing(refs[1..], hashes);
      assert forall k :: 1 <= k < |refs| ==> refs[k] == refs[1..][k - 1];
      assert r.Some? ==> exists i :: 0 <= i < |refs| && refs[i] == r.value && forall k :: 0 <= k < i ==> refs[k] in hashes by {
        if r.Some? {
          var i :| 0 <= i < |refs[1..]| && refs[1..][i] == r.value && forall k :: 0 <= k < i ==> refs[1..][k] in hashes;
          assert refs[i + 1] == r.value;
        }
      }
      r
  }

  /** The final check of `parse_refs`: every ref of both ranges has a hash. */
  function CheckRefs(upstream: seq<string>, downstream: seq<string>, hashes: map<string, string>)
    : (r: Result<Refs, RefsError>)
    ensures r.Success? <==> forall ref :: ref in upstream + downstream ==> ref in hashes
    ensures r.Success? ==> r.value == Refs(upstream, downstream, hashes)
    ensures r.Failure? ==> r.error.HashNotFound? && r.error.ref in upstream + downstream
                           && r.error.ref !in hashes
    ensures r.Failure? ==> exists i :: && 0 <= i < |upstream + downstream| && (upstream + downstream)[i] == r.error.ref
                                     && forall k :: 0 <= k < i ==> (upstream + downstream)[k] in hashes
  {
    match FirstMissing(upstream + downstream, hashes)
    case Some(ref) => Failure(HashNotFound(ref))
    case None => Success(Refs(upstream, downstream, hashes))
  }

  /** `parse_refs(lines)`. Anything but six lines is the `exit(1)` error; a
      malformed line is reported as the first such line's error. A result it
      returns has non-empty ranges and a non-empty map (so the caller's `if
      not upstream or not downstream or not hashes` never fires on it), and
      every ref of both ranges has a hash. */
  function ParseRefs(lines: seq<string>): (r: Result<Refs, RefsError>)
    ensures (r == Failure(WrongLineCount(|lines|))) <==> |lines| != 6
    ensures r.Failure? && |lines| == 6 ==> !r.error.WrongLineCount?
    ensures r.Success? ==> |r.value.upstream| > 0 && |r.value.downstream| > 0 && r.value.hashes != map[]
    ensures r.Success? ==> forall ref :: ref in r.value.upstream + r.value.downstream ==> ref in r.value.hashes
  {
    if |lines| != 6 then Failure(WrongLineCount(|lines|))
    else
      match ScanFrom(CheckLines(lines), 0, Scan(None, None, map[]))
      case Failure(e) => Failure(BadLine(e))
      case Success(st) => CheckRefs(st.upstream.value, st.downstream.value, st.hashes)
  }

  /* ---------------------------------------------------------------------- */
  /* the same, by line position                                              */
  /* ---------------------------------------------------------------------- */

  /** The entries of the checked lines from `i` on, or the first error. */
  function Entries(checked: seq<Result<Entry, LineError>>, i: nat): (r: Result<seq<Entry>, LineError>)
    requires i <= |checked|
    ensures r.Success? ==> |r.value| == |checked| - i
    ensures r.Success? ==> forall k :: i <= k < |checked| ==> checked[k] == Success(r.value[k - i])
    decreases |checked| - i
  {
    if i == |checked| then Success([])
    else
      var e :- checked[i];
      var rest :- Entries(checked, i + 1);
      Success([e] + rest)
  }

  /** The entries of all six header lines. */
  function HeaderEntries(lines: seq<string>): Result<seq<Entry>, LineError> {
    Entries(CheckLines(lines), 0)
  }

  /** The map built by recording the entries in order, so that a later entry
      overwrites an earlier one with the same key. */
  function Assign(m: map<string, string>, es: seq<Entry>): map<string, string>
    decreases |es|
  {
    if es == [] then m else Assign(m[es[0].key := es[0].value], es[1..])
  }

  /** The header read by position: line 0's value is the upstream range and
      line 1's the downstream range, whatever their keys; lines 2 to 5 give
      the hashes. */
  function PositionalRefs(lines: seq<string>): Result<Refs, RefsError>
    requires |lines| == 6
  {
    match HeaderEntries(lines)
    case Failure(e) => Failure(BadLine(e))
    case Success(es) => RefsOfEntries(es)
  }

  /** The ranges of entries 0 and 1 and the hashes of the rest, checked. */
  function RefsOfEntries(es: seq<Entry>): Result<Refs, RefsError>
    requires |es| >= 2
  {
    CheckRefs(SplitOn(es[0].value, ".."), SplitOn(es[1].value, ".."), Assign(map[], es[2..]))
  }

  /** All the loop steps over a list of entries. */
  function StepAll(st: Scan, es: seq<Entry>): Scan
    decreases |es|
  {
    if es == [] then st else StepAll(Step(st, es[0]), es[1..])
  }

  lemma {:induction false} ScanIsStepAll(checked: seq<Result<Entry, LineError>>, i: nat, st: Scan)
    requires i <= |checked|
    ensures ScanFrom(checked, i, st) == match Entries(checked, i)
                                        case Failure(e) => Failure(e)
                                        case Success(es) => Success(StepAll(st, es))
    decreases |checked| - i
  {
    if i < |checked| {
      match checked[i]
      case Failure(e) =>
      case Success(e) =>
        ScanIsStepAll(checked, i + 1, Step(st, e));
        match Entries(checked, i + 1)
        case Failure(_) =>
        case Success(rest) =>
          assert ([e] + rest)[1..] == rest;
    }
  }

  lemma {:induction false} StepAllAssigns(st: Scan, es: seq<Entry>)
    requires Truthy(st.upstream) && Truthy(st.downstream)
    ensures StepAll(st, es) == st.(hashes := Assign(st.hashes, es))
    decreases |es|
  {
    if es != [] {
      StepAllAssigns(Step(st, es[0]), es[1..]);
    }
  }

  /** The loop reads the header exactly by position. */
  lemma {:induction false} ParseRefsPositional(lines: seq<string>)
    requires |lines| == 6
    ensures ParseRefs(lines) == PositionalRefs(lines)
  {
    var start := Scan(None, None, map[]);
    ScanIsStepAll(CheckLines(lines), 0, start);
    match HeaderEntries(lines)
    case Failure(_) =>
    case Success(es) =>
      var up := SplitOn(es[0].value, "..");
      var down := SplitOn(es[1].value, "..");
      var st2 := Scan(Some(up), Some(down), map[]);
      assert StepAll(start, es) == StepAll(st2, es[2..]) by {
        assert es[1..][1..] == es[2..];
      }
      StepAllAssigns(st2, es[2..]);
  }

  /* ---------------------------------------------------------------------- */
  /* properties of the positional reading                                    */
  /* ---------------------------------------------------------------------- */

  /** The keys recorded are the old ones and those of the entries. */
  lemma {:induction false} AssignKeys(m: map<string, string>, es: seq<Entry>, k: string)
    ensures k in Assign(m, es) <==> k in m || exists j :: 0 <= j < |es| && es[j].key == k
    decreases |es|
  {
    if es != [] {
      AssignKeys(m[es[0].key := es[0].value], es[1..], k);
      if exists j :: 0 <= j < |es| && es[j].key == k {
        var j :| 0 <= j < |es| && es[j].key == k;
        if j > 0 {
          assert es[1..][j - 1].key == k;
        }
      }
      if exists j :: 0 <= j < |es[1..]| && es[1..][j].key == k {
        var j :| 0 <= j < |es[1..]| && es[1..][j].key == k;
        assert es[j + 1].key == k;
      }
    }
  }

  /** The value recorded for a key is that of the last entry with the key. */
  lemma {:induction false} AssignLastWins(m: map<string, string>, es: seq<Entry>, j: nat)
    requires j < |es|
    requires forall j' :: j < j' < |es| ==> es[j'].key != es[j].key
    ensures es[j].key in Assign(m, es) && Assign(m, es)[es[j].key] == es[j].value
    decreases |es|
  {
    var m' := m[es[0].key := es[0].value];
    if j == 0 {
      AssignUntouched(m', es[1..], es[0].key);
    } else {
      forall j' | j - 1 < j' < |es[1..]|
        ensures es[1..][j'].key != es[1..][j - 1].key
      {
        assert es[1..][j'] == es[j' + 1];
      }
      AssignLastWins(m', es[1..], j - 1);
    }
  }

  /** A key no entry names keeps its old value. */
  lemma {:induction false} AssignUntouched(m: map<string, string>, es: seq<Entry>, k: string)
    requires k in m
    requires forall j :: 0 <= j < |es| ==> es[j].key != k
    ensures k in Assign(m, es) && Assign(m, es)[k] == m[k]
    decreases |es|
  {
    if es != [] {
      AssignUntouched(m[es[0].key := es[0].value], es[1..], k);
    }
  }

  /** When every line is well formed, the entries are those of the lines. */
  lemma {:induction false} EntriesAllOk(checked: seq<Result<Entry, LineError>>, i: nat, es: seq<Entry>)
    requires i <= |checked| == |es|
    requires forall k :: i <= k < |checked| ==> checked[k] == Success(es[k])
    ensures Entries(checked, i) == Success(es[i..])
    decreases |checked| - i
  {
    if i < |checked| {
      EntriesAllOk(checked, i + 1, es);
      assert es[i..] == [es[i]] + es[i + 1..];
    } else {
      assert es[i..] == [];
    }
  }

  /** Replacing one well-formed line's entry by another changes only that
      entry. */
  lemma {:induction false} EntriesReplace(checked: seq<Result<Entry, LineError>>, i: nat, j: nat, e: Entry)
    requires i <= |checked| && j < |checked|
    requires checked[j].Success?
    ensures Entries(checked[j := Success(e)], i) == match Entries(checked, i)
                                                    case Failure(err) => Failure(err)
                                                    case Success(es) => Success(if i <= j then es[j - i := e] else es)
    decreases |checked| - i
  {
    if i < |checked| {
      EntriesReplace(checked, i + 1, j, e);
      match checked[i]
      case Failure(_) =>
      case Success(x) =>
        match Entries(checked, i + 1)
        case Failure(_) =>
        case Success(rest) =>
          if i == j {
            assert ([x] + rest)[0 := e] == [e] + rest;
          } else if i < j {
            assert ([x] + rest)[j - i := e] == [x] + rest[j - i - 1 := e];
          }
    }
  }

  /** On success, line 0's value split on `..` is the upstream range, line
      1's the downstream range, and the hashes hold exactly the keys of lines
      2 to 5. */
  lemma {:induction false} ParseRefsReadsPositions(lines: seq<string>)
    requires ParseRefs(lines).Success?
    ensures |lines| == 6 && HeaderEntries(lines).Success?
    ensures var es := HeaderEntries(lines).value;
            && (forall k :: 0 <= k < 6 ==> RefLine(lines[k], k) == Success(es[k]))
            && ParseRefs(lines).value.upstream == SplitOn(es[0].value, "..")
            && ParseRefs(lines).value.downstream == SplitOn(es[1].value, "..")
            && forall k :: k in ParseRefs(lines).value.hashes <==> exists j :: 2 <= j < 6 && es[j].key == k
  {
    ParseRefsPositional(lines);
    var es := HeaderEntries(lines).value;
    forall k
      ensures k in ParseRefs(lines).value.hashes <==> exists j :: 2 <= j < 6 && es[j].key == k
    {
      AssignKeys(map[], es[2..], k);
      if exists j :: 0 <= j < 4 && es[2..][j].key == k {
        var j :| 0 <= j < 4 && es[2..][j].key == k;
        assert es[j + 2].key == k;
      }
      if exists j :: 2 <= j < 6 && es[j].key == k {
        var j :| 2 <= j < 6 && es[j].key == k;
        assert es[2..][j - 2].key == k;
      }
    }
  }

  /** Every line of a header `parse_refs` accepts is a `# ` comment. */
  lemma {:induction false} HeaderLinesAreComments(lines: seq<string>)
    requires ParseRefs(lines).Success?
    ensures forall k :: 0 <= k < |lines| ==> StartsWith(lines[k], "# ")
  {
    ParseRefsReadsPositions(lines);
    forall k | 0 <= k < |lines|
      ensures StartsWith(lines[k], "# ")
    {
      assert RefLine(lines[k], k).Success?;
    }
  }

  /** Among lines 2 to 5, the last line naming a key gives its hash: a later
      duplicate overwrites an earlier one. */
  lemma {:induction false} ParseRefsLastWins(lines: seq<string>, j: nat)
    requires ParseRefs(lines).Success?
    requires 2 <= j < 6
    requires |lines| == 6 && HeaderEntries(lines).Success?
    requires forall j' :: j < j' < 6 ==> HeaderEntries(lines).value[j'].key != HeaderEntries(lines).value[j].key
    ensures RefLine(lines[j], j).Success?
    ensures var e := RefLine(lines[j], j).value;
            e.key in ParseRefs(lines).value.hashes && ParseRefs(lines).value.hashes[e.key] == e.value
  {
    ParseRefsPositional(lines);
    var es := HeaderEntries(lines).value;
    forall j' | j - 2 < j' < 4
      ensures es[2..][j'].key != es[2..][j - 2].key
    {
      assert es[2..][j'] == es[j' + 2];
    }
    AssignLastWins(map[], es[2..], j - 2);
  }

  lemma {:induction false} CheckLinesUpdate(lines: seq<string>, j: nat, line: string)
    requires j < |lines|
    ensures CheckLines(lines[j := line]) == CheckLines(lines)[j := RefLine(line, j)]
  {
    var a := CheckLines(lines[j := line]);
    var b := CheckLines(lines)[j := RefLine(line, j)];
    forall k | 0 <= k < |lines|
      ensures a[k] == b[k]
    {
      if k != j {
        assert lines[j := line][k] == lines[k];
      }
    }
  }

  /** The keys of lines 0 and 1 are never looked at: replacing either line by
      one with another key but the same value changes nothing. */
  lemma {:induction false} RangeKeysIgnored(lines: seq<string>, j: nat, line: string, key: string)
    requires |lines| == 6 && j < 2
    requires RefLine(lines[j], j).Success?
    requires RefLine(line, j) == Success(Entry(key, RefLine(lines[j], j).value.value))
    ensures ParseRefs(lines[j := line]) == ParseRefs(lines)
  {
    ParseRefsPositional(lines);
    ParseRefsPositional(lines[j := line]);
    CheckLinesUpdate(lines, j, line);
    RangeEntryKeyIgnored(CheckLines(lines), j, key);
  }

  /** The same, for the checked lines: the entries read with line `j`'s key
      replaced give the same result. */
  lemma {:induction false} RangeEntryKeyIgnored(checked: seq<Result<Entry, LineError>>, j: nat, key: string)
    requires |checked| == 6 && j < 2 && checked[j].Success?
    ensures var checked' := checked[j := Success(Entry(key, checked[j].value.value))];
            match (Entries(checked', 0), Entries(checked, 0))
            case (Success(es'), Success(es)) => RefsOfEntries(es') == RefsOfEntries(es)
            case (Failure(e'), Failure(e)) => e' == e
            case _ => false
  {
    var e := Entry(key, checked[j].value.value);
    EntriesReplace(checked, 0, j, e);
    match Entries(checked, 0)
    case Failure(_) =>
    case Success(es) =>
      var es' := es[j := e];
      assert es'[2..] == es[2..];
      assert es'[0].value == es[0].value && es'[1].value == es[1].value;
  }

  /* ---------------------------------------------------------------------- */
  /* the header layout                                                       */
  /* ---------------------------------------------------------------------- */

  /** Visible text without `:`: keys and hashes of a header line. */
  predicate Plain(s: string) {
    s != [] && Printable(s) && forall i :: 0 <= i < |s| ==> s[i] != ':'
  }

  /** A ref name as git allows it and a range can hold: visible text
      without `:`, without `..`, not ending in `.`. */
  predicate IsRefName(r: string) {
    && Plain(r)
    && (forall i :: 0 <= i < |r| - 1 ==> !(r[i] == '.' && r[i + 1] == '.'))
    && r[|r| - 1] != '.'
  }

  /** One header line as a report writes it, with its newline. */
  function RenderRefLine(key: string, value: string): string {
    "# " + key + ": " + value + "\n"
  }

  /** A reference header: the two ranges and four `ref: hash` lines. */
  function RenderRefs(upstream: seq<string>, downstream: seq<string>, es: seq<Entry>): (r: seq<string>)
    requires |es| == 4
    ensures |r| == 6
  {
    RenderHeader(JoinWith(upstream, ".."), JoinWith(downstream, ".."), es)
  }

  /** The six header lines for already joined ranges. */
  function RenderHeader(up: string, down: string, es: seq<Entry>): (r: seq<string>)
    requires |es| == 4
    ensures |r| == 6
    ensures r[0] == RenderRefLine("upstream", up) && r[1] == RenderRefLine("downstream", down)
    ensures forall k :: 2 <= k < 6 ==> r[k] == RenderRefLine(es[k - 2].key, es[k - 2].value)
  {
    [RenderRefLine("upstream", up),
     RenderRefLine("downstream", down),
     RenderRefLine(es[0].key, es[0].value),
     RenderRefLine(es[1].key, es[1].value),
     RenderRefLine(es[2].key, es[2].value),
     RenderRefLine(es[3].key, es[3].value)]
  }

  /** A rendered line reads back as its key and value. */
  lemma {:induction false} RefLineRoundTrip(key: string, value: string, index: nat)
    requires Plain(key) && Plain(value)
    ensures RefLine(RenderRefLine(key, value), index) == Success(Entry(key, value))
  {
    RenderedLineSplits(key, value);
    RefLineReads(RenderRefLine(key, value), key, value, index);
  }

  /** A rendered header line is a comment whose stripped body splits back
      into its key and value. */
  lemma {:induction false} RenderedLineSplits(key: string, value: string)
    requires Plain(key) && Plain(value)
    ensures var line := RenderRefLine(key, value);
            StartsWith(line, "# ") && SplitOn(Strip(line[2..]), ": ") == [key, value]
  {
    var line := RenderRefLine(key, value);
    assert line[..2] == "# ";
    RenderedBody(key, value);
    PairSplits(key, value);
  }

  /** Stripping a rendered line after its `# ` leaves `key: value`. */
  lemma {:induction false} RenderedBody(key: string, value: string)
    requires Plain(key) && Plain(value)
    ensures |RenderRefLine(key, value)| >= 2
    ensures Strip(RenderRefLine(key, value)[2..]) == key + ": " + value
  {
    var body := key + ": " + value;
    assert RenderRefLine(key, value)[2..] == body + "\n";
    PrintableNoSpace(key);
    PrintableNoSpace(value);
    assert AllSpace("\n");
    StripTrailingSpace(body, "\n");
  }

  /** `key: value` splits at `": "` into key and value when neither holds a colon. */
  lemma {:induction false} PairSplits(key: string, value: string)
    requires Plain(key) && Plain(value)
    ensures SplitOn(key + ": " + value, ": ") == [key, value]
  {
    CleanWithoutChar(key, ": ");
    CleanWithoutChar(value, ": ");
    SplitOfJoin([key, value], ": ");
    assert JoinWith([key, value], ": ") == key + ": " + value;
  }

  /** A comment line whose stripped body splits into `key` and `value` at
      `": "` checks as that entry. */
  lemma {:induction false} RefLineReads(line: string, key: string, value: string, index: nat)
    requires StartsWith(line, "# ")
    requires SplitOn(Strip(line[2..]), ": ") == [key, value]
    ensures RefLine(line, index) == Success(Entry(key, value))
  {
  }

  /** A range of ref names joined by `..` is plain text. */
  lemma {:induction false} JoinedRangePlain(refs: seq<string>)
    requires |refs| >= 1
    requires forall k :: 0 <= k < |refs| ==> IsRefName(refs[k])
    ensures Plain(JoinWith(refs, ".."))
    decreases |refs|
  {
    if |refs| > 1 {
      JoinedRangePlain(refs[1..]);
    }
  }

  /** A range of ref names joined by `..` splits back into those names. */
  lemma {:induction false} RangeRoundTrip(refs: seq<string>)
    requires |refs| >= 1
    requires forall k :: 0 <= k < |refs| ==> IsRefName(refs[k])
    ensures SplitOn(JoinWith(refs, ".."), "..") == refs
  {
    forall k | 0 <= k < |refs|
      ensures CleanBefore(refs[k], "..")
    {
      CleanBeforeDots(refs[k]);
    }
    SplitOfJoin(refs, "..");
  }

  /** The two range keys are plain text. */
  lemma {:induction false} RangeKeysPlain()
    ensures Plain("upstream") && Plain("downstream")
  {
  }

  /** A header rendered from plain text reads back, line by line, as the
      entries it was rendered from. */
  lemma {:induction false} HeaderChecked(up: string, down: string, es: seq<Entry>)
    requires Plain(up) && Plain(down) && |es| == 4
    requires forall k :: 0 <= k < 4 ==> Plain(es[k].key) && Plain(es[k].value)
    ensures HeaderEntries(RenderHeader(up, down, es))
            == Success([Entry("upstream", up), Entry("downstream", down)] + es)
  {
    var lines := RenderHeader(up, down, es);
    RangeKeysPlain();
    CheckedAt(lines, 0, "upstream", up);
    CheckedAt(lines, 1, "downstream", down);
    CheckedAt(lines, 2, es[0].key, es[0].value);
    CheckedAt(lines, 3, es[1].key, es[1].value);
    CheckedAt(lines, 4, es[2].key, es[2].value);
    CheckedAt(lines, 5, es[3].key, es[3].value);
    SixEntries(CheckLines(lines), Entry("upstream", up), Entry("downstream", down), es);
  }

  /** Six checked lines that all hold entries give those entries in order. */
  lemma {:induction false} SixEntries(checked: seq<Result<Entry, LineError>>, e0: Entry, e1: Entry, es: seq<Entry>)
    requires |checked| == 6 && |es| == 4
    requires checked[0] == Success(e0) && checked[1] == Success(e1)
    requires checked[2] == Success(es[0]) && checked[3] == Success(es[1])
    requires checked[4] == Success(es[2]) && checked[5] == Success(es[3])
    ensures Entries(checked, 0) == Success([e0, e1] + es)
  {
    var all := [e0, e1] + es;
    forall k | 0 <= k < 6
      ensures checked[k] == Success(all[k])
    {
      if k >= 2 {
        assert all[k] == es[k - 2];
      }
    }
    EntriesAllOk(checked, 0, all);
    assert all[0..] == all;
  }

  /** One rendered line of plain text checks to its entry wherever it stands. */
  lemma {:induction false} CheckedAt(lines: seq<string>, k: nat, key: string, value: string)
    requires k < |lines| && lines[k] == RenderRefLine(key, value)
    requires Plain(key) && Plain(value)
    ensures CheckLines(lines)[k] == Success(Entry(key, value))
  {
    RefLineRoundTrip(key, value, k);
  }

  /** A header in the report layout, whose every ref has a hash line, parses
      to its ranges and to the hashes of its four entries. */
  lemma {:induction false} ParseRenderedRefs(upstream: seq<string>, downstream: seq<string>, es: seq<Entry>)
    requires |upstream| >= 1 && |downstream| >= 1 && |es| == 4
    requires forall k :: 0 <= k < |upstream| ==> IsRefName(upstream[k])
    requires forall k :: 0 <= k < |downstream| ==> IsRefName(downstream[k])
    requires forall k :: 0 <= k < 4 ==> Plain(es[k].key) && Plain(es[k].value)
    requires forall ref :: ref in upstream + downstream ==> exists k :: 0 <= k < 4 && es[k].key == ref
    ensures ParseRefs(RenderRefs(upstream, downstream, es)) == Success(Refs(upstream, downstream, Assign(map[], es)))
  {
    var lines := RenderRefs(upstream, downstream, es);
    var up := JoinWith(upstream, "..");
    var down := JoinWith(downstream, "..");
    assert HeaderEntries(lines) == Success([Entry("upstream", up), Entry("downstream", down)] + es) by {
      JoinedRangePlain(upstream);
      JoinedRangePlain(downstream);
      HeaderChecked(up, down, es);
    }
    RenderedEntriesRefs(upstream, downstream, es);
    ParseRefsPositional(lines);
  }

  /** The entries of a rendered header name its ranges and, through the
      hash lines, a hash for every ref of them. */
  lemma {:induction false} RenderedEntriesRefs(upstream: seq<string>, downstream: seq<string>, es: seq<Entry>)
    requires |upstream| >= 1 && |downstream| >= 1 && |es| == 4
    requires forall k :: 0 <= k < |upstream| ==> IsRefName(upstream[k])
    requires forall k :: 0 <= k < |downstream| ==> IsRefName(downstream[k])
    requires forall ref :: ref in upstream + downstream ==> exists k :: 0 <= k < 4 && es[k].key == ref
    ensures RefsOfEntries([Entry("upstream", JoinWith(upstream, "..")), Entry("downstream", JoinWith(downstream, ".."))] + es)
            == Success(Refs(upstream, downstream, Assign(map[], es)))
  {
    var all := [Entry("upstream", JoinWith(upstream, "..")), Entry("downstream", JoinWith(downstream, ".."))] + es;
    assert all[2..] == es;
    RangeRoundTrip(upstream);
    RangeRoundTrip(downstream);
    forall ref | ref in upstream + downstream
      ensures ref in Assign(map[], es)
    {
      AssignKeys(map[], es, ref);
    }
  }
}
