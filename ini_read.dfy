/**
  The INI parser: inline-comment stripping and the line-by-line state
  machine of `read`, as pure functions over the store.  `ReadLine` is one
  pass of the parser's loop over one line; `ReadLines` is the whole loop.
 */
module IniRead {
  import opened Text
  import opened IniData

  // ---------------------------------------------------------------------
  // Inline comments

  /** An inline comment marker (space or TAB, then `;` or `#`) starts at `k`. */
  predicate IsMarkerAt(l: string, k: int) {
    0 <= k && k + 1 < |l| && (l[k] == ' ' || l[k] == '\t') && (l[k + 1] == ';' || l[k + 1] == '#')
  }

  /** The four markers `stripComments` searches for, in its order. */
  const Markers: seq<string> := [" ;", "\t;", " #", "\t#"]

  lemma MarkerAtIff(l: string, k: int)
    ensures IsMarkerAt(l, k) <==> exists m :: 0 <= m < 4 && OccursAt(l, Markers[m], k)
  {
    if IsMarkerAt(l, k) {
      var m := if l[k] == ' ' then (if l[k + 1] == ';' then 0 else 2) else (if l[k + 1] == ';' then 1 else 3);
      assert l[k..k + 2] == [l[k], l[k + 1]];
      assert OccursAt(l, Markers[m], k);
    }
    if exists m :: 0 <= m < 4 && OccursAt(l, Markers[m], k) {
      var m :| 0 <= m < 4 && OccursAt(l, Markers[m], k);
      assert l[k] == l[k..k + 2][0] && l[k + 1] == l[k..k + 2][1];
    }
  }

  /** The leftmost marker at or after `k`, or |l| when there is none. */
  function FirstMarker(l: string, k: nat): (r: nat)
    requires k <= |l|
    ensures k <= r <= |l|
    ensures r < |l| ==> IsMarkerAt(l, r)
    ensures forall j :: k <= j < r ==> !IsMarkerAt(l, j)
    decreases |l| - k
  {
    if k == |l| || IsMarkerAt(l, k) then k else FirstMarker(l, k + 1)
  }

  /**
    The line cut at its leftmost inline comment marker: a prefix of the line
    holding no marker, and the whole line when it holds none.
   */
  function CommentFree(l: string): (r: string)
    ensures |r| <= |l| && r == l[..|r|]
    ensures forall j :: !IsMarkerAt(r, j)
    ensures (forall j :: !IsMarkerAt(l, j)) ==> r == l
    ensures |r| < |l| ==> IsMarkerAt(l, |r|)
  {
    var k := FirstMarker(l, 0);
    var r := l[..k];
    assert forall j :: IsMarkerAt(r, j) ==> IsMarkerAt(l, j);
    r
  }

  /**
    stripComments: for each marker in turn, cut the line at its first
    occurrence.  Proved to be the same as cutting at the leftmost marker.
   */
  method StripComments(l: string) returns (r: string)
    ensures r == CommentFree(l)
  {
    r := l;
    for m := 0 to 4
      invariant CutSoFar(l, r, m)
    {
      var i := Index(r, Markers[m]);
      if i != -1 {
        CutStep(l, r, m, i);
        r := r[..i];
      } else {
        CutSkip(l, r, m);
      }
    }
    StripCommentsResult(l, r);
  }

  /** After the first `m` cuts: a prefix of the line, ending at a marker or the line's end, free of the first `m` markers. */
  ghost predicate CutSoFar(l: string, r: string, m: int) {
    && 0 <= m <= 4
    && |r| <= |l| && r == l[..|r|]
    && (|r| == |l| || IsMarkerAt(l, |r|))
    && forall n, j :: 0 <= n < m ==> !OccursAt(r, Markers[n], j)
  }

  /** A marker string that is absent from `r` stays absent from every prefix of it. */
  lemma AbsentFromPrefix(r: string, i: nat, sub: string)
    requires i <= |r| && forall j :: !OccursAt(r, sub, j)
    ensures forall j :: !OccursAt(r[..i], sub, j)
  {
    forall j ensures OccursAt(r[..i], sub, j) ==> OccursAt(r, sub, j) {
      if 0 <= j && j + |sub| <= i {
        assert r[..i][j..j + |sub|] == r[j..j + |sub|];
      }
    }
  }

  /** Cutting at the first occurrence of marker `m` removes every occurrence of it. */
  lemma FirstCutRemoves(r: string, i: nat, sub: string)
    requires i <= |r| && |sub| > 0 && forall j :: j < i ==> !OccursAt(r, sub, j)
    ensures forall j :: !OccursAt(r[..i], sub, j)
  {
    forall j | OccursAt(r[..i], sub, j) ensures false {
      assert r[..i][j..j + |sub|] == r[j..j + |sub|];
      assert OccursAt(r, sub, j);
    }
  }

  /** Where marker `m` occurs in the current prefix, the line itself has a marker. */
  lemma CutAtMarker(l: string, r: string, m: int, i: int)
    requires 0 <= m < 4 && |r| <= |l| && r == l[..|r|] && OccursAt(r, Markers[m], i)
    ensures IsMarkerAt(l, i)
  {
    MarkerAtIff(r, i);
    assert r[i] == l[i] && r[i + 1] == l[i + 1];
  }

  /** One cut of StripComments' loop keeps its invariant. */
  lemma CutStep(l: string, r: string, m: int, i: int)
    requires 0 <= m < 4 && CutSoFar(l, r, m)
    requires i != -1 && OccursAt(r, Markers[m], i) && forall j :: j < i ==> !OccursAt(r, Markers[m], j)
    ensures 0 <= i <= |r| && CutSoFar(l, r[..i], m + 1)
  {
    CutAtMarker(l, r, m, i);
    var r' := r[..i];
    assert r' == l[..i];
    forall n | 0 <= n < m ensures forall j :: !OccursAt(r', Markers[n], j) {
      AbsentFromPrefix(r, i, Markers[n]);
    }
    assert |Markers[m]| == 2;
    FirstCutRemoves(r, i, Markers[m]);
  }

  /** A marker that does not occur leaves the loop's invariant in place. */
  lemma CutSkip(l: string, r: string, m: int)
    requires 0 <= m < 4 && CutSoFar(l, r, m) && forall j :: !OccursAt(r, Markers[m], j)
    ensures CutSoFar(l, r, m + 1)
  {
  }

  /** What the loop of StripComments leaves behind is the leftmost cut. */
  lemma StripCommentsResult(l: string, r: string)
    requires |r| <= |l| && r == l[..|r|]
    requires |r| == |l| || IsMarkerAt(l, |r|)
    requires forall n, j :: 0 <= n < 4 ==> !OccursAt(r, Markers[n], j)
    ensures r == CommentFree(l)
  {
    var k := FirstMarker(l, 0);
    forall j ensures !IsMarkerAt(r, j) {
      MarkerAtIff(r, j);
    }
    assert |r| >= k;
    assert k < |l| ==> IsMarkerAt(l, k);
    assert k + 1 < |r| ==> IsMarkerAt(r, k);
    assert k + 1 == |r| ==> |r| < |l| && !IsMarkerAt(l, |r|);
    assert |r| <= k;
  }

  /** Markers count only after a space or TAB: `#` and `;` elsewhere survive. */
  lemma CommentFreeExamples()
    ensures CommentFree("a#b;c") == "a#b;c"
    ensures CommentFree("value ; note # more") == "value"
    ensures CommentFree("x\t# y ;z") == "x"
  {
    assert !IsMarkerAt("a#b;c", 0) && !IsMarkerAt("a#b;c", 1) && !IsMarkerAt("a#b;c", 2);
    assert !IsMarkerAt("a#b;c", 3) && !IsMarkerAt("a#b;c", 4);
    assert forall j :: !IsMarkerAt("a#b;c", j);
    assert FirstMarker("value ; note # more", 5) == 5;
    assert FirstMarker("x\t# y ;z", 1) == 1;
  }

  // ---------------------------------------------------------------------
  // The line-by-line parser

  /** What the parser carries from line to line: the store, the current section and option names. */
  datatype ReadState = ReadState(data: Data, section: string, option: string)

  /** The state `read` starts in: the given store, section "default", no option. */
  function Initial(d: Data): ReadState {
    ReadState(d, DefaultSection, "")
  }

  /** The outcome of one line: go on in a new state, or stop with an error. */
  datatype LineResult = Next(state: ReadState) | Stop(error: ReadError)

  /** The line is blank or a full-line comment: `#`, `;` or any case of `rem` first. */
  predicate IsSkipped(l: string) {
    |l| == 0 || l[0] == '#' || l[0] == ';' || StartsWithRem(l)
  }

  /** The first three characters spell `rem` in some mix of cases. */
  predicate StartsWithRem(l: string) {
    |l| >= 3 && ToLower(l[..3]) == "rem"
  }

  /** `rem` is recognised character by character. */
  lemma StartsWithRemIff(l: string)
    ensures StartsWithRem(l) <==> |l| >= 3 && LowerChar(l[0]) == 'r' && LowerChar(l[1]) == 'e' && LowerChar(l[2]) == 'm'
  {
    if |l| >= 3 {
      var t := ToLower(l[..3]);
      assert t == [t[0], t[1], t[2]];
      assert "rem" == ['r', 'e', 'm'];
    }
  }

  /** The line is a `[...]` section header. */
  predicate IsHeader(l: string) {
    |l| > 0 && l[0] == '[' && l[|l| - 1] == ']'
  }

  /** Section name of a header line: the trimmed text between the brackets. */
  function HeaderName(l: string): string
    requires IsHeader(l)
  {
    TrimSpace(l[1..|l| - 1])
  }

  /** One iteration of `read`'s loop on a raw line: it is trimmed first. */
  function ReadLine(st: ReadState, raw: string): (r: LineResult)
    ensures r.Next? ==> (KeysFolded(st.data) ==> KeysFolded(r.state.data))
  {
    ReadTrimmed(st, TrimSpace(raw))
  }

  /** The classification of a trimmed line, in the order the parser's switch tests it. */
  function ReadTrimmed(st: ReadState, l: string): (r: LineResult)
    ensures r.Next? ==> (KeysFolded(st.data) ==> KeysFolded(r.state.data))
  {
    if IsSkipped(l) then Next(st)
    else if IsHeader(l) then
      var s := HeaderName(l);
      Next(ReadState(AddSection(st.data, s).0, s, ""))
    else if st.section == "" then Stop(ReadError(BlankSection, l))
    else
      var i := IndexAny(l, "=:");
      if i > 0 then Next(Assignment(st, l, i))
      else if st.option != "" then Next(Continuation(st, l))
      else Stop(ReadError(CouldNotParse, l))
  }

  /** `name=value`: the trimmed name becomes the current option, set to the trimmed comment-free rest. */
  function Assignment(st: ReadState, l: string, i: nat): (r: ReadState)
    requires i < |l|
    ensures KeysFolded(st.data) ==> KeysFolded(r.data)
  {
    var o := TrimSpace(l[..i]);
    var v := TrimSpace(CommentFree(l[i + 1..]));
    ReadState(AddOption(st.data, st.section, o, v).0, st.section, o)
  }

  /** A continuation line: the current option's value, a newline, and the trimmed comment-free line. */
  function Continuation(st: ReadState, l: string): (r: ReadState)
    ensures KeysFolded(st.data) ==> KeysFolded(r.data)
  {
    var prev := match GetRawString(st.data, st.section, st.option) case Ok(p) => p case Err(_) => "";
    var v := TrimSpace(CommentFree(l));
    ReadState(AddOption(st.data, st.section, st.option, prev + "\n" + v).0, st.section, st.option)
  }

  /** The outcome of reading a sequence of lines: the state reached, and the error that stopped it, if any. */
  datatype ReadOutcome = ReadOutcome(state: ReadState, error: Option<ReadError>)

  /** The whole loop of `read`: lines in order until the first error; an error keeps the state before its line. */
  function ReadLines(st: ReadState, lines: seq<string>): (r: ReadOutcome)
    ensures KeysFolded(st.data) ==> KeysFolded(r.state.data)
    decreases |lines|
  {
    if lines == [] then ReadOutcome(st, None)
    else
      match ReadLine(st, lines[0])
      case Stop(e) => ReadOutcome(st, Some(e))
      case Next(st') => ReadLines(st', lines[1..])
  }

  /** `read` on the text of a file: the text is split into lines at '\n'. */
  function ReadText(d: Data, text: string): (r: ReadOutcome)
    ensures KeysFolded(d) ==> KeysFolded(r.state.data)
  {
    ReadLines(Initial(d), Split(text, '\n'))
  }

  /** Reading `a + b` is reading `a`, then (unless `a` failed) reading `b` from where `a` stopped. */
  lemma {:induction false} ReadLinesAppend(st: ReadState, a: seq<string>, b: seq<string>)
    ensures ReadLines(st, a + b)
            == var r := ReadLines(st, a); if r.error.Some? then r else ReadLines(r.state, b)
    decreases |a|
  {
    if a == [] {
      assert a + b == b;
    } else {
      assert (a + b)[0] == a[0];
      assert (a + b)[1..] == a[1..] + b;
      match ReadLine(st, a[0])
      case Stop(e) =>
      case Next(st') => ReadLinesAppend(st', a[1..], b);
    }
  }

  // ---------------------------------------------------------------------
  // What one line does

  /** Blank and comment lines change nothing, not even the current option. */
  lemma SkippedLine(st: ReadState, raw: string)
    requires IsSkipped(TrimSpace(raw))
    ensures ReadLine(st, raw) == Next(st)
  {
  }

  /** Every line starting with `rem` in any case is a comment, `remote=1` included. */
  lemma RemPrefixIsComment(st: ReadState, p: string, rest: string)
    requires |p| == 3 && ToLower(p) == "rem" && IsTrimmed(p + rest)
    ensures ReadLine(st, p + rest) == Next(st)
  {
    var l := p + rest;
    TrimSpaceOfTrimmed(l);
    assert l[..3] == p;
  }

  /** A header adds the folded, trimmed section, makes it current and clears the option. */
  lemma HeaderLine(st: ReadState, raw: string)
    requires var l := TrimSpace(raw); !IsSkipped(l) && IsHeader(l)
    ensures var s := HeaderName(TrimSpace(raw));
            ReadLine(st, raw) == Next(ReadState(AddSection(st.data, s).0, s, ""))
  {
  }

  /** After a `[]` header every line that is not blank, a comment or a header is a BlankSection error. */
  lemma BlankSectionLine(st: ReadState, raw: string)
    requires st.section == ""
    requires var l := TrimSpace(raw); !IsSkipped(l) && !IsHeader(l)
    ensures ReadLine(st, raw) == Stop(ReadError(BlankSection, TrimSpace(raw)))
  {
  }

  /** A line whose first `=` or `:` is past its start sets that option from the trimmed, comment-free rest. */
  lemma OptionLine(st: ReadState, raw: string)
    requires st.section != ""
    requires var l := TrimSpace(raw); !IsSkipped(l) && !IsHeader(l) && IndexAny(l, "=:") > 0
    ensures var l := TrimSpace(raw); var i := IndexAny(l, "=:");
            var o := TrimSpace(l[..i]);
            ReadLine(st, raw) == Next(ReadState(AddOption(st.data, st.section, o, TrimSpace(CommentFree(l[i + 1..]))).0, st.section, o))
  {
  }

  /** A line without such a separator continues the current option's value on a new line. */
  lemma ContinuationLine(st: ReadState, raw: string)
    requires st.section != "" && st.option != ""
    requires var l := TrimSpace(raw); !IsSkipped(l) && !IsHeader(l) && IndexAny(l, "=:") <= 0
    ensures var prev := match GetRawString(st.data, st.section, st.option) case Ok(p) => p case Err(_) => "";
            var v := prev + "\n" + TrimSpace(CommentFree(TrimSpace(raw)));
            ReadLine(st, raw) == Next(ReadState(AddOption(st.data, st.section, st.option, v).0, st.section, st.option))
  {
  }

  /** The same line with no current option is CouldNotParse. */
  lemma UnparsableLine(st: ReadState, raw: string)
    requires st.section != "" && st.option == ""
    requires var l := TrimSpace(raw); !IsSkipped(l) && !IsHeader(l) && IndexAny(l, "=:") <= 0
    ensures ReadLine(st, raw) == Stop(ReadError(CouldNotParse, TrimSpace(raw)))
  {
  }

  // ---------------------------------------------------------------------
  // Lines as `write` renders them

  /** A section name that `write` renders as a header `read` gives back unchanged. */
  ghost predicate PlainSection(s: string) {
    s != "" && IsLowerCase(s) && IsTrimmed(s) && '\n' !in s
  }

  /** An option name that `write` renders as a line `read` splits back at the first `=`. */
  ghost predicate PlainOption(o: string) {
    && o != "" && IsLowerCase(o) && IsTrimmed(o)
    && '\n' !in o && '=' !in o && ':' !in o
    && o[0] != '#' && o[0] != ';' && o[0] != '['
    && !(|o| >= 3 && o[..3] == "rem")
  }

  /** A value that comes back verbatim: no surrounding space, no newline, no inline comment marker. */
  ghost predicate PlainValue(v: string) {
    IsTrimmed(v) && '\n' !in v && forall j :: !IsMarkerAt(v, j)
  }

  /** A continuation line: not blank, comment or header, without `=`, `:` or comment markers, trimmed. */
  ghost predicate PlainContinuation(b: string) {
    && b != "" && IsTrimmed(b) && '\n' !in b && '=' !in b && ':' !in b
    && b[0] != '#' && b[0] != ';' && b[0] != '['
    && !StartsWithRem(b)
    && forall j :: !IsMarkerAt(b, j)
  }

  /** The header line of a plain section adds it, makes it current and clears the option. */
  lemma ReadHeaderOf(st: ReadState, s: string)
    requires PlainSection(s)
    ensures ReadLine(st, "[" + s + "]") == Next(ReadState(AddSection(st.data, s).0, s, ""))
  {
    var l := "[" + s + "]";
    assert l[0] == '[' && l[|l| - 1] == ']';
    TrimSpaceOfTrimmed(l);
    assert l[1..|l| - 1] == s;
    TrimSpaceOfTrimmed(s);
    assert HeaderName(l) == s;
    assert !IsSkipped(l) by {
      if |l| >= 3 { assert ToLower(l[..3])[0] == '['; }
    }
  }

  lemma OptionLineTrimmed(o: string, v: string)
    requires PlainOption(o) && PlainValue(v)
    ensures TrimSpace(o + "=" + v) == o + "=" + v
  {
    var l := o + "=" + v;
    assert l[0] == o[0];
    assert l[|l| - 1] == if v == "" then '=' else v[|v| - 1];
    TrimSpaceOfTrimmed(l);
  }

  lemma OptionLineNotRem(o: string, v: string)
    requires PlainOption(o)
    ensures !StartsWithRem(o + "=" + v)
  {
    var l := o + "=" + v;
    StartsWithRemIff(l);
    if |o| >= 3 {
      assert l[0] == o[0] && l[1] == o[1] && l[2] == o[2];
      assert o[..3] == [o[0], o[1], o[2]];
      assert LowerChar(o[0]) == o[0] && LowerChar(o[1]) == o[1] && LowerChar(o[2]) == o[2];
    } else {
      assert l[|o|] == '=';
    }
  }

  lemma OptionLineSeparator(o: string, v: string)
    requires PlainOption(o)
    ensures var l := o + "=" + v;
            IndexAny(l, "=:") == |o| && l[..|o|] == o && l[|o| + 1..] == v
  {
    var l := o + "=" + v;
    forall k | 0 <= k < |o| ensures l[k] !in "=:" {
      assert l[k] == o[k];
    }
    assert l[|o|] in "=:";
    assert l[..|o|] == o;
    assert l[|o| + 1..] == v;
  }

  /** How the parser classifies the line `o=v` of a plain option and value. */
  lemma OptionLineShape(o: string, v: string)
    requires PlainOption(o) && PlainValue(v)
    ensures var l := o + "=" + v;
            && TrimSpace(l) == l && !IsSkipped(l) && !IsHeader(l)
            && IndexAny(l, "=:") == |o| && l[..|o|] == o && l[|o| + 1..] == v
            && TrimSpace(o) == o && TrimSpace(CommentFree(v)) == v
  {
    OptionLineTrimmed(o, v);
    OptionLineNotRem(o, v);
    OptionLineSeparator(o, v);
    assert (o + "=" + v)[0] == o[0];
    TrimSpaceOfTrimmed(o);
    TrimSpaceOfTrimmed(v);
  }

  /** The line `o=v` of a plain option and value sets exactly that option in the current section. */
  lemma ReadOptionOf(st: ReadState, o: string, v: string)
    requires st.section != "" && PlainOption(o) && PlainValue(v)
    ensures ReadLine(st, o + "=" + v) == Next(ReadState(AddOption(st.data, st.section, o, v).0, st.section, o))
  {
    OptionLineShape(o, v);
    OptionLine(st, o + "=" + v);
  }

  /** A plain continuation line appends a newline and itself to the current option's value. */
  lemma ReadContinuationOf(st: ReadState, b: string)
    requires st.section != "" && st.option != "" && PlainContinuation(b)
    ensures var prev := match GetRawString(st.data, st.section, st.option) case Ok(p) => p case Err(_) => "";
            ReadLine(st, b) == Next(ReadState(AddOption(st.data, st.section, st.option, prev + "\n" + b).0, st.section, st.option))
  {
    TrimSpaceOfTrimmed(b);
    assert IndexAny(b, "=:") == -1;
  }

  /**
    Options before any header land in the default section: any option line,
    whatever its case, spacing or inline comment, read first.
   */
  lemma OptionBeforeHeader(d: Data, raw: string)
    requires var l := TrimSpace(raw); !IsSkipped(l) && !IsHeader(l) && IndexAny(l, "=:") > 0
    ensures var l := TrimSpace(raw); var i := IndexAny(l, "=:");
            var o := TrimSpace(l[..i]);
            ReadLine(Initial(d), raw) == Next(ReadState(AddOption(d, DefaultSection, o, TrimSpace(CommentFree(l[i + 1..]))).0, DefaultSection, o))
  {
    OptionLine(Initial(d), raw);
  }

  /** In particular `o=v`, for a plain name and value, stores exactly `v` under `o` in the default section. */
  lemma PlainOptionBeforeHeader(d: Data, o: string, v: string)
    requires PlainOption(o) && PlainValue(v)
    ensures ReadLine(Initial(d), o + "=" + v) == Next(ReadState(AddOption(d, DefaultSection, o, v).0, DefaultSection, o))
  {
    ReadOptionOf(Initial(d), o, v);
  }

  /** A line that does not stop the parser hands the rest of the lines the state it produced. */
  lemma ReadLinesCons(st: ReadState, l: string, rest: seq<string>, st': ReadState)
    requires ReadLine(st, l) == Next(st')
    ensures ReadLines(st, [l] + rest) == ReadLines(st', rest)
  {
    assert ([l] + rest)[0] == l;
    assert ([l] + rest)[1..] == rest;
  }

  /** Reading no lines leaves the state as it is, without an error. */
  lemma ReadLinesNil(st: ReadState, lines: seq<string>)
    requires lines == []
    ensures ReadLines(st, lines) == ReadOutcome(st, None)
  {
  }

  /** A line that stops the parser ends the read there, keeping the state before it. */
  lemma ReadLinesStop(st: ReadState, l: string, rest: seq<string>, e: ReadError)
    requires ReadLine(st, l) == Stop(e)
    ensures ReadLines(st, [l] + rest) == ReadOutcome(st, Some(e))
  {
    assert ([l] + rest)[0] == l;
  }

  /** A continuation line after `o=a` leaves the option holding `a`, a newline, and the line. */
  lemma MultiLineValue(st: ReadState, o: string, a: string, b: string)
    requires st.section != "" && PlainOption(o) && PlainValue(a) && PlainContinuation(b)
    ensures ReadLines(st, [o + "=" + a, b])
            == ReadOutcome(ReadState(AddOption(st.data, st.section, o, a + "\n" + b).0, st.section, o), None)
  {
    var l1 := o + "=" + a;
    var st2 := ReadState(AddOption(st.data, st.section, o, a).0, st.section, o);
    ReadOptionOf(st, o, a);
    GetAfterAddOption(st.data, st.section, o, a);
    ReadContinuationOf(st2, b);
    var v := a + "\n" + b;
    AddOptionTwice(st.data, st.section, o, a, v);
    var st3 := ReadState(AddOption(st.data, st.section, o, v).0, st.section, o);
    ReadLinesCons(st2, b, [], st3);
    ReadLinesCons(st, l1, [b], st2);
    assert [l1] + [b] == [l1, b];
  }
}
