/** The Python string operations the report parser relies on, over `seq<char>`:
    `str.isspace`, `str.strip()`, `str.split()` (runs of whitespace),
    `str.split(sep)`, `sep.join(parts)`, `int()` on decimal digit strings and
    `'%d'` / zero-padded formatting of non-negative integers. */
module Text {
  import opened Wrappers

  /** Python's `str.isspace` for one character: the characters `str.split()`
      and `str.strip()` treat as whitespace. */
  const Whitespace: set<char> := {'\U{20}', '\U{9}', '\U{A}', '\U{B}', '\U{C}', '\U{D}', '\U{1C}', '\U{1D}', '\U{1E}', '\U{1F}', '\U{85}', '\U{A0}', '\U{1680}', '\U{2000}', '\U{2001}', '\U{2002}', '\U{2003}', '\U{2004}', '\U{2005}', '\U{2006}', '\U{2007}', '\U{2008}', '\U{2009}', '\U{200A}', '\U{2028}', '\U{2029}', '\U{202F}', '\U{205F}', '\U{3000}'}

  predicate IsSpace(c: char) {
    c in Whitespace
  }

  predicate NoSpace(s: string) {
    forall i :: 0 <= i < |s| ==> !IsSpace(s[i])
  }

  predicate AllSpace(s: string) {
    forall i :: 0 <= i < |s| ==> IsSpace(s[i])
  }

  /* ---------------------------------------------------------------------- */
  /* strip()                                                                 */
  /* ---------------------------------------------------------------------- */

  /** How many whitespace characters `s` starts with. */
  function LeadingSpace(s: string): (n: nat)
    ensures n <= |s|
    ensures forall i :: 0 <= i < n ==> IsSpace(s[i])
    ensures n == |s| || !IsSpace(s[n])
  {
    if s != [] && IsSpace(s[0]) then
      var n := 1 + LeadingSpace(s[1..]);
      assert forall i :: 1 <= i < n ==> s[i] == s[1..][i - 1];
      n
    else 0
  }

  /** How many whitespace characters `s` ends with. */
  function TrailingSpace(s: string): (n: nat)
    ensures n <= |s|
    ensures forall i :: |s| - n <= i < |s| ==> IsSpace(s[i])
    ensures n == |s| || !IsSpace(s[|s| - n - 1])
  {
    if s != [] && IsSpace(s[|s| - 1]) then
      var n := 1 + TrailingSpace(s[..|s| - 1]);
      assert forall i :: |s| - n <= i < |s| - 1 ==> s[i] == s[..|s| - 1][i];
      n
    else 0
  }

  /** `s.lstrip()`: the suffix of `s` left after dropping leading whitespace. */
  function TrimStart(s: string): (r: string)
    ensures |r| <= |s| && r == s[|s| - |r|..]
    ensures r == [] || !IsSpace(r[0])
    ensures AllSpace(s[..|s| - |r|])
  {
    s[LeadingSpace(s)..]
  }

  /** `s.rstrip()`: the prefix of `s` left after dropping trailing whitespace. */
  function TrimEnd(s: string): (r: string)
    ensures |r| <= |s| && r == s[..|r|]
    ensures r == [] || !IsSpace(r[|r| - 1])
    ensures AllSpace(s[|r|..])
  {
    s[..|s| - TrailingSpace(s)]
  }

  /** `s.strip()`: `s` without its leading and trailing whitespace. */
  function Strip(s: string): (r: string)
    ensures r == [] || (!IsSpace(r[0]) && !IsSpace(r[|r| - 1]))
  {
    TrimEnd(TrimStart(s))
  }

  /** What `Strip` removes is whitespace only, from both ends: the result is
      a contiguous part of `s` with nothing but whitespace around it. */
  lemma {:induction false} StripRemovesOnlySpace(s: string)
    ensures var r := Strip(s);
            exists i :: 0 <= i <= |s| - |r| && r == s[i..i + |r|]
                        && AllSpace(s[..i]) && AllSpace(s[i + |r|..])
  {
    var t := TrimStart(s);
    var i := |s| - |t|;
    var r := TrimEnd(t);
    assert t == s[i..];
    assert r == s[i..i + |r|];
    assert s[i + |r|..] == t[|r|..];
  }

  /** Stripping text whose ends are already not whitespace, followed by
      whitespace only, leaves the text. */
  lemma {:induction false} StripTrailingSpace(s: string, tail: string)
    requires s == [] || (!IsSpace(s[0]) && !IsSpace(s[|s| - 1]))
    requires AllSpace(tail)
    ensures Strip(s + tail) == s
  {
    var t := TrimStart(s + tail);
    if s == [] {
      assert TrimStart(tail) == [] by { TrimStartAllSpace(tail); }
    } else {
      assert t == s + tail;
      TrimEndAllSpace(s, tail);
    }
  }

  lemma {:induction false} TrimStartAllSpace(s: string)
    requires AllSpace(s)
    ensures TrimStart(s) == []
  {
  }

  lemma {:induction false} TrimEndAllSpace(s: string, tail: string)
    requires s != [] && !IsSpace(s[|s| - 1])
    requires AllSpace(tail)
    ensures TrimEnd(s + tail) == s
  {
    var u := s + tail;
    assert !IsSpace(u[|s| - 1]);
    assert forall i :: |s| <= i < |u| ==> u[i] == tail[i - |s|];
    assert TrailingSpace(u) == |tail|;
    assert u[..|s|] == s;
  }

  /* ---------------------------------------------------------------------- */
  /* split() on whitespace runs                                              */
  /* ---------------------------------------------------------------------- */

  /** The longest prefix of `s` holding no whitespace. */
  function WordPrefix(s: string): (r: string)
    ensures |r| <= |s| && r == s[..|r|] && NoSpace(r)
    ensures |r| == |s| || IsSpace(s[|r|])
  {
    if s == [] || IsSpace(s[0]) then [] else [s[0]] + WordPrefix(s[1..])
  }

  /** `s.split()`: the maximal runs of non-whitespace characters of `s`, in
      order. */
  function Words(s: string): (r: seq<string>)
    ensures forall k :: 0 <= k < |r| ==> r[k] != [] && NoSpace(r[k])
    decreases |s|
  {
    if s == [] then []
    else if IsSpace(s[0]) then Words(s[1..])
    else
      var w := WordPrefix(s);
      [w] + Words(s[|w|..])
  }

  /** `sep.join(parts)`. */
  function JoinWith(parts: seq<string>, sep: string): string {
    if |parts| == 0 then ""
    else if |parts| == 1 then parts[0]
    else parts[0] + sep + JoinWith(parts[1..], sep)
  }

  /** Words separated by single spaces, followed by any whitespace (such as
      the `'\n'` kept by `readlines()`), split back into those words. */
  lemma {:induction false} WordsOfJoin(ws: seq<string>, tail: string)
    requires forall k :: 0 <= k < |ws| ==> ws[k] != [] && NoSpace(ws[k])
    requires AllSpace(tail)
    ensures Words(JoinWith(ws, " ") + tail) == ws
    decreases |ws|
  {
    var whole := JoinWith(ws, " ") + tail;
    if |ws| == 0 {
      WordsOfSpace(tail);
      assert whole == tail;
    } else if |ws| == 1 {
      assert whole == ws[0] + tail;
      WordsAfterWord(ws[0], tail);
      WordsOfSpace(tail);
      assert Words(whole) == [ws[0]];
    } else {
      var more := ws[1..];
      assert forall k :: 0 <= k < |more| ==> more[k] == ws[k + 1];
      WordsOfJoin(more, tail);
      JoinWordStep(ws, tail);
    }
  }

  /** One step of `WordsOfJoin`: a word and a space put in front of the
      joined rest add that word in front of its words. */
  lemma {:induction false} JoinWordStep(ws: seq<string>, tail: string)
    requires |ws| >= 2 && ws[0] != [] && NoSpace(ws[0])
    requires Words(JoinWith(ws[1..], " ") + tail) == ws[1..]
    ensures Words(JoinWith(ws, " ") + tail) == ws
  {
    var rest := JoinWith(ws[1..], " ") + tail;
    assert JoinWith(ws, " ") + tail == ws[0] + (" " + rest) by {
      JoinCons(ws, " ");
    }
    WordThenSpace(ws[0], rest);
    assert ws == [ws[0]] + ws[1..];
  }

  /** A word followed by a space comes out as that word in front of the
      words of whatever follows the space. */
  lemma {:induction false} WordThenSpace(w: string, rest: string)
    requires w != [] && NoSpace(w)
    ensures Words(w + (" " + rest)) == [w] + Words(rest)
  {
    WordsAfterWord(w, " " + rest);
    WordsSkipsSpace(rest);
  }

  lemma {:induction false} JoinCons(parts: seq<string>, sep: string)
    requires |parts| >= 2
    ensures JoinWith(parts, sep) == parts[0] + sep + JoinWith(parts[1..], sep)
  {
  }

  /** Joining two non-empty lists is joining each and putting one separator
      between them. */
  lemma {:induction false} JoinAppend(xs: seq<string>, ys: seq<string>, sep: string)
    requires |xs| >= 1 && |ys| >= 1
    ensures JoinWith(xs + ys, sep) == JoinWith(xs, sep) + sep + JoinWith(ys, sep)
    decreases |xs|
  {
    var all := xs + ys;
    if |xs| == 1 {
      assert all[1..] == ys;
    } else {
      assert all[1..] == xs[1..] + ys;
      JoinAppend(xs[1..], ys, sep);
    }
  }

  lemma {:induction false} WordsOfSpace(s: string)
    requires AllSpace(s)
    ensures Words(s) == []
    decreases |s|
  {
    if s != [] {
      WordsOfSpace(s[1..]);
    }
  }

  lemma {:induction false} WordsSkipsSpace(s: string)
    ensures Words(" " + s) == Words(s)
  {
    assert (" " + s)[1..] == s;
  }

  lemma {:induction false} WordsAfterWord(w: string, rest: string)
    requires w != [] && NoSpace(w)
    requires rest == [] || IsSpace(rest[0])
    ensures Words(w + rest) == [w] + Words(rest)
  {
    var s := w + rest;
    assert s[0] == w[0];
    WordPrefixOfWord(w, rest);
    assert s[|w|..] == rest;
  }

  lemma {:induction false} WordPrefixOfWord(w: string, rest: string)
    requires NoSpace(w)
    requires rest == [] || IsSpace(rest[0])
    ensures WordPrefix(w + rest) == w
    decreases |w|
  {
    if w == [] {
      assert w + rest == rest;
    } else {
      assert (w + rest)[1..] == w[1..] + rest;
      WordPrefixOfWord(w[1..], rest);
    }
  }

  /** Whitespace gaps around `n` words: one before each word and one after
      the last, the inner ones non-empty. */
  predicate SpaceGaps(gaps: seq<string>, n: nat) {
    && |gaps| == n + 1
    && (forall k :: 0 <= k < |gaps| ==> AllSpace(gaps[k]))
    && (forall k :: 0 < k < n ==> gaps[k] != [])
  }

  /** `gaps[0] + words[0] + gaps[1] + ... + words[n-1] + gaps[n]`. */
  function Interleave(gaps: seq<string>, words: seq<string>): string
    requires |gaps| == |words| + 1
    decreases |words|
  {
    if words == [] then gaps[0] else gaps[0] + words[0] + Interleave(gaps[1..], words[1..])
  }

  /** Every line is its `split()` words with whitespace gaps between them,
      so the words are the line's maximal non-whitespace runs. */
  lemma {:induction false} WordsCoverLine(s: string)
    ensures exists gaps :: SpaceGaps(gaps, |Words(s)|) && Interleave(gaps, Words(s)) == s
  {
    var gaps := WordsGaps(s);
  }

  /** The gaps of `WordsCoverLine`, built along `Words`. */
  lemma {:induction false} WordsGaps(s: string) returns (gaps: seq<string>)
    ensures SpaceGaps(gaps, |Words(s)|) && Interleave(gaps, Words(s)) == s
    ensures s != [] && IsSpace(s[0]) ==> gaps[0] != []
    decreases |s|
  {
    if s == [] {
      gaps := [[]];
    } else if IsSpace(s[0]) {
      var g := WordsGaps(s[1..]);
      SpaceBeforeGaps(s[0], g, Words(s[1..]));
      gaps := [[s[0]] + g[0]] + g[1..];
      assert s == [s[0]] + s[1..];
    } else {
      var w := WordPrefix(s);
      var rest := s[|w|..];
      var g := WordsGaps(rest);
      assert Words(s) == [w] + Words(rest);
      assert s == w + rest;
      WordBeforeGaps(w, g, Words(rest));
      gaps := [[]] + g;
    }
  }

  /** One more whitespace character before the first gap. */
  lemma {:induction false} SpaceBeforeGaps(c: char, g: seq<string>, words: seq<string>)
    requires IsSpace(c) && SpaceGaps(g, |words|)
    ensures var gaps := [[c] + g[0]] + g[1..];
            && SpaceGaps(gaps, |words|) && gaps[0] != []
            && Interleave(gaps, words) == [c] + Interleave(g, words)
  {
    var gaps := [[c] + g[0]] + g[1..];
    forall k | 0 <= k < |gaps|
      ensures AllSpace(gaps[k])
    {
      if k > 0 {
        assert gaps[k] == g[k];
      }
    }
    assert gaps[1..] == g[1..];
  }

  /** One more word in front, after an empty first gap. */
  lemma {:induction false} WordBeforeGaps(w: string, g: seq<string>, words: seq<string>)
    requires SpaceGaps(g, |words|)
    requires words == [] || g[0] != []
    ensures var gaps := [[]] + g;
            && SpaceGaps(gaps, |words| + 1)
            && Interleave(gaps, [w] + words) == w + Interleave(g, words)
  {
    var gaps := [[]] + g;
    assert gaps[1..] == g;
    assert ([w] + words)[1..] == words;
    assert AllSpace(gaps[0]);
    forall k | 0 < k < |words| + 1
      ensures gaps[k] != []
    {
      assert gaps[k] == g[k - 1];
    }
  }

  /** The converse: words with whitespace gaps between them are what
      `split()` returns for the line they make. */
  lemma {:induction false} WordsOfInterleave(gaps: seq<string>, words: seq<string>)
    requires SpaceGaps(gaps, |words|)
    requires forall k :: 0 <= k < |words| ==> words[k] != [] && NoSpace(words[k])
    ensures Words(Interleave(gaps, words)) == words
    decreases |words|
  {
    if words == [] {
      WordsOfSpace(gaps[0]);
    } else {
      var rest := Interleave(gaps[1..], words[1..]);
      assert AllSpace(gaps[0]);
      WordsAfterSpace(gaps[0], words[0] + rest);
      if |words| > 1 {
        assert gaps[1] != [];
        assert rest[0] == gaps[1][0];
        assert AllSpace(gaps[1]);
      } else {
        assert rest == gaps[1];
        assert AllSpace(gaps[1]);
      }
      WordsAfterWord(words[0], rest);
      forall k | 0 <= k < |words[1..]|
        ensures words[1..][k] != [] && NoSpace(words[1..][k])
      {
        assert words[1..][k] == words[k + 1];
      }
      forall k | 0 <= k < |gaps[1..]|
        ensures AllSpace(gaps[1..][k])
      {
        assert gaps[1..][k] == gaps[k + 1];
      }
      WordsOfInterleave(gaps[1..], words[1..]);
      assert gaps[0] + words[0] + rest == gaps[0] + (words[0] + rest);
      assert words == [words[0]] + words[1..];
    }
  }

  /** Leading whitespace does not change `split()`. */
  lemma {:induction false} WordsAfterSpace(g: string, t: string)
    requires AllSpace(g)
    ensures Words(g + t) == Words(t)
    decreases |g|
  {
    if g != [] {
      assert (g + t)[1..] == g[1..] + t;
      WordsAfterSpace(g[1..], t);
    } else {
      assert g + t == t;
    }
  }

  /* ---------------------------------------------------------------------- */
  /* split(sep)                                                              */
  /* ---------------------------------------------------------------------- */

  /** `sep` occurs in `s` starting at index `i`. */
  predicate OccursAt(s: string, sep: string, i: nat) {
    i + |sep| <= |s| && s[i..i + |sep|] == sep
  }

  /** The first index at or after `from` where `sep` occurs in `s`. */
  function FindFrom(s: string, sep: string, from: nat): (r: Option<nat>)
    requires from <= |s|
    ensures r.Some? ==> from <= r.value && OccursAt(s, sep, r.value)
    ensures r.Some? ==> forall j :: from <= j < r.value ==> !OccursAt(s, sep, j)
    ensures r.None? ==> forall j :: from <= j ==> !OccursAt(s, sep, j)
    decreases |s| - from
  {
    if from + |sep| > |s| then None
    else if s[from..from + |sep|] == sep then Some(from)
    else FindFrom(s, sep, from + 1)
  }

  /** `s.split(sep)` for a non-empty separator: the pieces between the
      non-overlapping occurrences of `sep`, found from left to right. */
  function SplitOn(s: string, sep: string): (r: seq<string>)
    requires sep != []
    ensures |r| >= 1
    ensures JoinWith(r, sep) == s
    ensures forall k, j :: 0 <= k < |r| ==> !OccursAt(r[k], sep, j)
    ensures forall k :: 0 <= k < |r| - 1 ==> CleanBefore(r[k], sep)
    decreases |s|
  {
    match FindFrom(s, sep, 0)
    case None => [s]
    case Some(i) =>
      var rest := SplitOn(s[i + |sep|..], sep);
      var r := [s[..i]] + rest;
      assert r[1..] == rest;
      assert s == s[..i] + sep + s[i + |sep|..];
      FirstPiece(s, sep, i);
      r
  }

  /** `sep` occurs nowhere in `s`. */
  predicate NoMatch(s: string, sep: string) {
    forall j :: 0 <= j <= |s| ==> !OccursAt(s, sep, j)
  }

  /** The text before the leftmost `sep` holds no `sep`, and no match of
      `sep` starts inside it even when `sep` follows it. */
  lemma {:induction false} FirstPiece(s: string, sep: string, i: nat)
    requires sep != [] && OccursAt(s, sep, i)
    requires forall j :: 0 <= j < i ==> !OccursAt(s, sep, j)
    ensures forall j :: !OccursAt(s[..i], sep, j)
    ensures CleanBefore(s[..i], sep)
  {
    forall j: nat ensures !OccursAt(s[..i], sep, j) {
      if j + |sep| <= i {
        assert !OccursAt(s, sep, j);
        assert s[..i][j..j + |sep|] == s[j..j + |sep|];
      }
    }
    assert s[..i] + sep == s[..i + |sep|];
    forall j | 0 <= j < i
      ensures !OccursAt(s[..i] + sep, sep, j)
    {
      assert !OccursAt(s, sep, j);
      assert s[..i + |sep|][j..j + |sep|] == s[j..j + |sep|];
    }
  }

  /** A piece that is followed by `sep` in a joined string cannot produce an
      earlier match of `sep`, even one that runs into the separator. */
  predicate CleanBefore(p: string, sep: string) {
    forall j :: 0 <= j < |p| ==> !OccursAt(p + sep, sep, j)
  }

  /** The converse of `SplitOn`'s contract: any pieces that join to `s`,
      where no piece but the last meets a match running into the next
      separator and the last holds none, are exactly `s.split(sep)`. */
  lemma {:induction false} SplitOnExactly(parts: seq<string>, sep: string)
    requires sep != [] && |parts| >= 1
    requires forall k :: 0 <= k < |parts| - 1 ==> CleanBefore(parts[k], sep)
    requires NoMatch(parts[|parts| - 1], sep)
    ensures SplitOn(JoinWith(parts, sep), sep) == parts
    decreases |parts|
  {
    if |parts| == 1 {
      SplitNoMatch(parts[0], sep);
    } else {
      LaterPieces(parts, sep);
      SplitOnExactly(parts[1..], sep);
      SplitPieceStep(parts, sep);
    }
  }

  /** One step of `SplitOnExactly`: a clean first piece is split off in
      front of the fields of the joined rest. */
  lemma {:induction false} SplitPieceStep(parts: seq<string>, sep: string)
    requires sep != [] && |parts| >= 2 && CleanBefore(parts[0], sep)
    requires SplitOn(JoinWith(parts[1..], sep), sep) == parts[1..]
    ensures SplitOn(JoinWith(parts, sep), sep) == parts
  {
    JoinCons(parts, sep);
    SplitAfterPiece(parts[0], sep, JoinWith(parts[1..], sep));
    assert parts == [parts[0]] + parts[1..];
  }

  /** Text holding no `sep` is a single field. */
  lemma {:induction false} SplitNoMatch(p: string, sep: string)
    requires sep != [] && NoMatch(p, sep)
    ensures SplitOn(p, sep) == [p]
  {
    assert FindFrom(p, sep, 0).None?;
  }

  /** The pieces after the first still meet the conditions of `SplitOnExactly`. */
  lemma {:induction false} LaterPieces(parts: seq<string>, sep: string)
    requires |parts| >= 2
    requires forall k :: 0 <= k < |parts| - 1 ==> CleanBefore(parts[k], sep)
    requires NoMatch(parts[|parts| - 1], sep)
    ensures forall k :: 0 <= k < |parts| - 2 ==> CleanBefore(parts[1..][k], sep)
    ensures NoMatch(parts[1..][|parts| - 2], sep)
  {
    var more := parts[1..];
    forall k | 0 <= k < |more| - 1
      ensures CleanBefore(more[k], sep)
    {
      assert more[k] == parts[k + 1];
    }
    assert more[|more| - 1] == parts[|parts| - 1];
  }

  /** A piece followed by `sep` is split off first. */
  lemma {:induction false} SplitAfterPiece(p: string, sep: string, tail: string)
    requires sep != [] && CleanBefore(p, sep)
    ensures SplitOn(p + sep + tail, sep) == [p] + SplitOn(tail, sep)
  {
    var s := p + sep + tail;
    forall j: nat | j < |p|
      ensures !OccursAt(s, sep, j)
    {
      assert !OccursAt(p + sep, sep, j);
      assert (p + sep)[j..j + |sep|] == s[j..j + |sep|];
    }
    assert s[|p|..|p| + |sep|] == sep;
    assert OccursAt(s, sep, |p|);
    assert FindFrom(s, sep, 0) == Some(|p|);
    assert s[..|p|] == p;
    assert s[|p| + |sep|..] == tail;
  }

  /** Splitting a join gives the parts back, when no part can be mistaken for
      (the start of) a separator. */
  lemma {:induction false} SplitOfJoin(parts: seq<string>, sep: string)
    requires sep != [] && |parts| >= 1
    requires forall k :: 0 <= k < |parts| ==> CleanBefore(parts[k], sep)
    ensures SplitOn(JoinWith(parts, sep), sep) == parts
    decreases |parts|
  {
    var p := parts[0];
    var s := JoinWith(parts, sep);
    if |parts| == 1 {
      forall j: nat
        ensures !OccursAt(p, sep, j)
      {
        if j + |sep| <= |p| {
          assert !OccursAt(p + sep, sep, j);
          assert (p + sep)[j..j + |sep|] == p[j..j + |sep|];
        }
      }
      assert FindFrom(p, sep, 0).None?;
    } else {
      var tail := JoinWith(parts[1..], sep);
      assert s == p + sep + tail;
      SplitAfterPiece(p, sep, tail);
      SplitOfJoin(parts[1..], sep);
      assert parts == [p] + parts[1..];
    }
  }

  /** `s` does not contain the character `c`. */
  predicate Lacks(s: string, c: char) {
    forall i :: 0 <= i < |s| ==> s[i] != c
  }

  lemma {:induction false} LacksConcat(a: string, b: string, c: char)
    requires Lacks(a, c) && Lacks(b, c)
    ensures Lacks(a + b, c)
  {
  }

  /** A piece without the separator's first character is clean before it. */
  lemma {:induction false} CleanWithoutChar(p: string, sep: string)
    requires sep != []
    requires forall i :: 0 <= i < |p| ==> p[i] != sep[0]
    ensures CleanBefore(p, sep)
  {
    forall j: nat | j < |p|
      ensures !OccursAt(p + sep, sep, j)
    {
      if j + |sep| <= |p + sep| {
        assert (p + sep)[j..j + |sep|][0] == p[j];
      }
    }
  }

  /** A piece neither containing `..` nor ending in `.` is clean before `..`. */
  lemma {:induction false} CleanBeforeDots(p: string)
    requires forall i :: 0 <= i < |p| - 1 ==> !(p[i] == '.' && p[i + 1] == '.')
    requires p == [] || p[|p| - 1] != '.'
    ensures CleanBefore(p, "..")
  {
    forall j: nat | j < |p|
      ensures !OccursAt(p + "..", "..", j)
    {
      var u := p + "..";
      if j + 1 < |p| {
        assert u[j..j + 2] == [p[j], p[j + 1]];
      } else {
        assert u[j..j + 2] == [p[j], '.'];
      }
    }
  }

  /* ---------------------------------------------------------------------- */
  /* int() and '%d'                                                          */
  /* ---------------------------------------------------------------------- */

  predicate IsDigit(c: char) {
    '0' <= c <= '9'
  }

  /** A non-empty string of ASCII decimal digits. */
  predicate IsDecimal(s: string) {
    |s| > 0 && forall i :: 0 <= i < |s| ==> IsDigit(s[i])
  }

  function DigitValue(c: char): nat
    requires IsDigit(c)
  {
    c as int - '0' as int
  }

  function DigitChar(d: nat): (c: char)
    requires d < 10
    ensures IsDigit(c) && DigitValue(c) == d
  {
    ('0' as int + d) as char
  }

  /** The number a string of decimal digits denotes, most significant first. */
  function DecimalValue(s: string): nat
    requires forall i :: 0 <= i < |s| ==> IsDigit(s[i])
  {
    if s == [] then 0 else DecimalValue(s[..|s| - 1]) * 10 + DigitValue(s[|s| - 1])
  }

  /** `int(s)` restricted to decimal digit strings: `None` where Python raises
      `ValueError`. */
  function ParseNat(s: string): (r: Option<nat>)
    ensures r.Some? <==> IsDecimal(s)
  {
    if IsDecimal(s) then Some(DecimalValue(s)) else None
  }

  /** `'%d' % n` for a non-negative `n`: its shortest decimal form. */
  function ShowNat(n: nat): (r: string)
    ensures IsDecimal(r)
    ensures DecimalValue(r) == n
    ensures |r| == 1 || r[0] != '0'
  {
    if n < 10 then [DigitChar(n)]
    else
      var r := ShowNat(n / 10) + [DigitChar(n % 10)];
      assert r[..|r| - 1] == ShowNat(n / 10);
      r
  }

  lemma {:induction false} ParseShowNat(n: nat)
    ensures ParseNat(ShowNat(n)) == Some(n)
  {
  }

  /** A canonical digit string (no leading zero unless it is "0") is the
      shortest form of its value. */
  lemma {:induction false} ShowParsedNat(s: string)
    requires IsDecimal(s)
    requires |s| == 1 || s[0] != '0'
    ensures ShowNat(DecimalValue(s)) == s
    decreases |s|
  {
    if |s| > 1 {
      var init := s[..|s| - 1];
      assert forall i :: 0 <= i < |init| ==> init[i] == s[i];
      ShowParsedNat(init);
      assert s == init + [s[|s| - 1]];
      ShowDigitStep(init, s[|s| - 1]);
    }
  }

  /** One step of `ShowParsedNat`: a digit after a canonical digit string
      is shown as the last digit of the longer number. */
  lemma {:induction false} ShowDigitStep(init: string, c: char)
    requires IsDecimal(init) && init[0] != '0' && IsDigit(c)
    requires ShowNat(DecimalValue(init)) == init
    ensures ShowNat(DecimalValue(init + [c])) == init + [c]
  {
    var s := init + [c];
    assert s[..|s| - 1] == init;
    LeadingDigitBound(init);
    var n := DecimalValue(s);
    DivMod10(DecimalValue(init), DigitValue(c));
    assert n / 10 == DecimalValue(init);
    assert n % 10 == DigitValue(c);
  }

  lemma {:induction false} DivMod10(a: nat, d: nat)
    requires d < 10
    ensures (a * 10 + d) / 10 == a && (a * 10 + d) % 10 == d
  {
  }

  lemma {:induction false} LeadingDigitBound(s: string)
    requires IsDecimal(s)
    ensures DecimalValue(s) >= DigitValue(s[0])
    decreases |s|
  {
    if |s| > 1 {
      LeadingDigitBound(s[..|s| - 1]);
    }
  }

  /** Leading zeros do not change the value of a digit string. */
  lemma {:induction false} LeadingZeros(z: nat, s: string)
    requires forall i :: 0 <= i < |s| ==> IsDigit(s[i])
    ensures forall i :: 0 <= i < z + |s| ==> IsDigit((Zeros(z) + s)[i])
    ensures DecimalValue(Zeros(z) + s) == DecimalValue(s)
    decreases |s|
  {
    var t := Zeros(z) + s;
    if s == [] {
      assert t == Zeros(z);
      ZerosValue(z);
    } else {
      assert t[..|t| - 1] == Zeros(z) + s[..|s| - 1];
      LeadingZeros(z, s[..|s| - 1]);
    }
  }

  lemma {:induction false} ZerosValue(z: nat)
    ensures DecimalValue(Zeros(z)) == 0
  {
    if z > 0 {
      assert Zeros(z)[..z - 1] == Zeros(z - 1);
      ZerosValue(z - 1);
    }
  }

  function Zeros(z: nat): (r: string)
    ensures |r| == z && forall i :: 0 <= i < z ==> r[i] == '0'
  {
    if z == 0 then "" else "0" + Zeros(z - 1)
  }

  /** `n` formatted with `'%0<width>d'`, as `strftime` pads its fields: the
      decimal form of `n`, left-filled with zeros up to `width` characters. */
  function PadNat(n: nat, width: nat): (r: string)
    ensures |r| == if |ShowNat(n)| < width then width else |ShowNat(n)|
    ensures IsDecimal(r) && DecimalValue(r) == n
  {
    var digits := ShowNat(n);
    var z := if |digits| < width then width - |digits| else 0;
    LeadingZeros(z, digits);
    Zeros(z) + digits
  }

  lemma {:induction false} ShowNatBelow(n: nat, width: nat)
    requires width >= 1 && n < Pow10(width)
    ensures |ShowNat(n)| <= width
  {
    if n >= 10 {
      ShowNatBelow(n / 10, width - 1);
    }
  }

  function Pow10(k: nat): nat {
    if k == 0 then 1 else 10 * Pow10(k - 1)
  }

  /** Visible ASCII text: from `!` to `~`. */
  predicate Printable(s: string) {
    forall i :: 0 <= i < |s| ==> '!' <= s[i] <= '~'
  }

  /** Visible ASCII text holds no whitespace. */
  lemma {:induction false} PrintableNoSpace(s: string)
    requires Printable(s)
    ensures NoSpace(s)
  {
    forall i | 0 <= i < |s|
      ensures !IsSpace(s[i])
    {
      assert '!' <= s[i] <= '~';
    }
  }

  /** A fixed-width digit string is the zero-padded form of its own value. */
  lemma {:induction false} PadParsedNat(s: string)
    requires IsDecimal(s)
    ensures PadNat(DecimalValue(s), |s|) == s
    decreases |s|
  {
    if |s| == 1 || s[0] != '0' {
      ShowParsedNat(s);
    } else {
      var t := s[1..];
      assert s == Zeros(1) + t;
      LeadingZeros(1, t);
      PadParsedNat(t);
      var n := DecimalValue(t);
      var digits := ShowNat(n);
      assert |digits| <= |t|;
      assert Zeros(|s| - |digits|) == "0" + Zeros(|t| - |digits|);
    }
  }

  /** `int(s)` of a digit string is the number whose `'%0<len(s)>d'` form is
      `s`, so leading zeros are read as zeros: `int("007")` is 7. */
  lemma {:induction false} ParseNatValue(s: string)
    requires IsDecimal(s)
    ensures ParseNat(s).Some? && PadNat(ParseNat(s).value, |s|) == s
  {
    PadParsedNat(s);
  }

  /* ---------------------------------------------------------------------- */
  /* list slices                                                             */
  /* ---------------------------------------------------------------------- */

  /** Python's `xs[:n]`: the first `n` elements, or all of them if fewer. */
  function Take<T>(xs: seq<T>, n: nat): (r: seq<T>)
    ensures |r| == if |xs| < n then |xs| else n
    ensures r == xs[..|r|]
  {
    if |xs| < n then xs else xs[..n]
  }

  /** Python's `xs[-n:]` for `n > 0`: the last `n` elements, or all of them if
      fewer. */
  function Last<T>(xs: seq<T>, n: nat): (r: seq<T>)
    requires n > 0
    ensures |r| == if |xs| < n then |xs| else n
    ensures r == xs[|xs| - |r|..]
  {
    if |xs| < n then xs else xs[|xs| - n..]
  }
}
