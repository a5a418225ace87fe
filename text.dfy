/**
  String helpers standing for the Go standard-library calls that the INI
  provider makes: strings.TrimSpace, strings.ToLower (ASCII only here),
  strings.Index, strings.IndexAny, and the line splitting that
  bufio.Reader.ReadString('\n') performs.
 */
module Text {

  /** The characters Go's unicode.IsSpace accepts. */
  predicate IsSpace(c: char) {
    || c == ' ' || c == '\t' || c == '\n' || c == '\U{0B}' || c == '\U{0C}' || c == '\r'
    || c == '\U{85}' || c == '\U{A0}' || c == '\U{1680}'
    || ('\U{2000}' <= c <= '\U{200A}')
    || c == '\U{2028}' || c == '\U{2029}' || c == '\U{202F}' || c == '\U{205F}' || c == '\U{3000}'
  }

  /** True when `s` has no whitespace at either end (TrimSpace leaves it alone). */
  predicate IsTrimmed(s: string) {
    s == [] || (!IsSpace(s[0]) && !IsSpace(s[|s| - 1]))
  }

  /** Drops leading whitespace: the result is a suffix of `s` and everything dropped is space. */
  function TrimLeft(s: string): (r: string)
    ensures |r| <= |s| && r == s[|s| - |r|..]
    ensures r == [] || !IsSpace(r[0])
    ensures forall i :: 0 <= i < |s| - |r| ==> IsSpace(s[i])
  {
    if |s| > 0 && IsSpace(s[0]) then TrimLeft(s[1..]) else s
  }

  /** Drops trailing whitespace: the result is a prefix of `s` and everything dropped is space. */
  function TrimRight(s: string): (r: string)
    ensures |r| <= |s| && r == s[..|r|]
    ensures r == [] || !IsSpace(r[|r| - 1])
    ensures forall i :: |r| <= i < |s| ==> IsSpace(s[i])
  {
    if |s| > 0 && IsSpace(s[|s| - 1]) then TrimRight(s[..|s| - 1]) else s
  }

  /** Go's strings.TrimSpace. */
  function TrimSpace(s: string): (r: string)
    ensures IsTrimmed(r)
    ensures |r| <= |s|
  {
    TrimRight(TrimLeft(s))
  }

  /** A string with no whitespace at its ends is left unchanged by TrimSpace. */
  lemma TrimSpaceOfTrimmed(s: string)
    requires IsTrimmed(s)
    ensures TrimSpace(s) == s
  {
  }

  /** One character of ASCII case folding. */
  function LowerChar(c: char): char {
    if 'A' <= c <= 'Z' then (c as int + 32) as char else c
  }

  predicate IsLowerChar(c: char) {
    !('A' <= c <= 'Z')
  }

  /** No ASCII capital letter occurs in `s`. */
  predicate IsLowerCase(s: string) {
    forall i :: 0 <= i < |s| ==> IsLowerChar(s[i])
  }

  /** strings.ToLower restricted to ASCII letters: folds each character, keeps the length. */
  function ToLower(s: string): (r: string)
    ensures |r| == |s|
    ensures forall i :: 0 <= i < |s| ==> r[i] == LowerChar(s[i])
    ensures IsLowerCase(r)
  {
    if s == [] then [] else [LowerChar(s[0])] + ToLower(s[1..])
  }

  /** Folding changes nothing exactly when there is no capital letter to fold. */
  lemma ToLowerFixedIff(s: string)
    ensures ToLower(s) == s <==> IsLowerCase(s)
  {
    if IsLowerCase(s) {
      assert forall i :: 0 <= i < |s| ==> ToLower(s)[i] == s[i];
    } else {
      var i :| 0 <= i < |s| && !IsLowerChar(s[i]);
      assert ToLower(s)[i] != s[i];
    }
  }

  /** `sub` occurs in `s` starting at index `i`. */
  predicate OccursAt(s: string, sub: string, i: int) {
    0 <= i && i + |sub| <= |s| && s[i..i + |sub|] == sub
  }

  function IndexFrom(s: string, sub: string, k: nat): (r: int)
    requires k <= |s|
    ensures r == -1 || (k <= r && OccursAt(s, sub, r))
    ensures r == -1 ==> forall i :: k <= i ==> !OccursAt(s, sub, i)
    ensures r != -1 ==> forall i :: k <= i < r ==> !OccursAt(s, sub, i)
    decreases |s| - k
  {
    if OccursAt(s, sub, k) then k
    else if k == |s| then -1
    else IndexFrom(s, sub, k + 1)
  }

  /** Go's strings.Index: the first occurrence of `sub` in `s`, or -1. */
  function Index(s: string, sub: string): (r: int)
    ensures r == -1 <==> forall i :: !OccursAt(s, sub, i)
    ensures r != -1 ==> OccursAt(s, sub, r) && forall i :: i < r ==> !OccursAt(s, sub, i)
  {
    IndexFrom(s, sub, 0)
  }

  /** Go's strings.IndexAny: the first index holding one of `chars`, or -1. */
  function IndexAny(s: string, chars: string): (r: int)
    ensures -1 <= r < |s|
    ensures r >= 0 ==> s[r] in chars && forall i :: 0 <= i < r ==> s[i] !in chars
    ensures r == -1 <==> forall i :: 0 <= i < |s| ==> s[i] !in chars
  {
    if s == [] then -1
    else if s[0] in chars then 0
    else
      var r := IndexAny(s[1..], chars);
      if r == -1 then -1 else r + 1
  }

  /**
    The pieces that repeated ReadString(sep) calls return, with the separator
    removed: the text before each separator, then whatever follows the last one.
   */
  function Split(s: string, sep: char): (r: seq<string>)
    ensures |r| >= 1
    ensures forall i :: 0 <= i < |r| ==> sep !in r[i]
    decreases |s|
  {
    var i := IndexAny(s, [sep]);
    if i == -1 then [s] else [s[..i]] + Split(s[i + 1..], sep)
  }

  /** Each line followed by the separator, concatenated. */
  function JoinLines(lines: seq<string>, sep: char): string {
    if lines == [] then "" else lines[0] + [sep] + JoinLines(lines[1..], sep)
  }

  /** Joined text is empty only for no lines; otherwise it starts with the first line and ends with a separator. */
  lemma {:induction false} JoinLinesShape(lines: seq<string>, sep: char)
    ensures JoinLines(lines, sep) == "" <==> lines == []
    ensures lines != [] ==> lines[0] + [sep] <= JoinLines(lines, sep) && JoinLines(lines, sep)[|JoinLines(lines, sep)| - 1] == sep
    decreases |lines|
  {
    if lines != [] {
      JoinLinesShape(lines[1..], sep);
    }
  }

  lemma {:induction false} JoinLinesAppend(a: seq<string>, b: seq<string>, sep: char)
    ensures JoinLines(a + b, sep) == JoinLines(a, sep) + JoinLines(b, sep)
  {
    if a != [] {
      assert (a + b)[1..] == a[1..] + b;
      JoinLinesAppend(a[1..], b, sep);
    } else {
      assert a + b == b;
    }
  }

  /** The first separator of `l + [sep] + rest` is the one right after `l`. */
  lemma SplitHead(l: string, rest: string, sep: char)
    requires sep !in l
    ensures Split(l + [sep] + rest, sep) == [l] + Split(rest, sep)
  {
    var s := l + [sep] + rest;
    assert s[|l|] == sep;
    assert forall k :: 0 <= k < |l| ==> s[k] == l[k];
    assert IndexAny(s, [sep]) == |l|;
    assert s[..|l|] == l;
    assert s[|l| + 1..] == rest;
  }

  lemma ConsParts<T>(x: T, r: seq<T>)
    ensures ([x] + r)[0] == x && ([x] + r)[1..] == r
  {
  }

  lemma AppendAssoc<T>(a: seq<T>, b: seq<T>, c: seq<T>)
    ensures a + (b + c) == a + b + c
  {
  }

  /** When neither `a` nor `b` has a piece holding `x`, neither has `a + b`. */
  lemma NoneHoldsAppend<T>(a: seq<seq<T>>, b: seq<seq<T>>, x: T)
    requires forall i :: 0 <= i < |a| ==> x !in a[i]
    requires forall i :: 0 <= i < |b| ==> x !in b[i]
    ensures forall i :: 0 <= i < |a + b| ==> x !in (a + b)[i]
  {
    forall i | 0 <= i < |a + b| ensures x !in (a + b)[i] {
      if i < |a| {
        assert (a + b)[i] == a[i];
      } else {
        assert (a + b)[i] == b[i - |a|];
      }
    }
  }

  lemma SnocParts<T>(s: seq<T>, x: T)
    requires |s| > 0
    ensures (s + [x])[0] == s[0] && (s + [x])[1..] == s[1..] + [x]
  {
  }

  lemma SplitJoinStep(l: string, rest: seq<string>, sep: char)
    requires sep !in l
    requires Split(JoinLines(rest, sep), sep) == rest + [""]
    ensures Split(JoinLines([l] + rest, sep), sep) == [l] + rest + [""]
  {
    var tail := JoinLines(rest, sep);
    ConsParts(l, rest);
    assert JoinLines([l] + rest, sep) == l + [sep] + tail;
    SplitHead(l, tail, sep);
    AppendAssoc([l], rest, [""]);
  }

  /** Splitting joined lines gives the lines back, plus the empty piece after the last separator. */
  lemma {:induction false} SplitJoinLines(lines: seq<string>, sep: char)
    requires forall i :: 0 <= i < |lines| ==> sep !in lines[i]
    ensures Split(JoinLines(lines, sep), sep) == lines + [""]
  {
    if lines == [] {
      assert Split("", sep) == [""];
    } else {
      var rest := lines[1..];
      assert forall i :: 0 <= i < |rest| ==> sep !in rest[i] by {
        forall i | 0 <= i < |rest| ensures sep !in rest[i] { assert rest[i] == lines[i + 1]; }
      }
      SplitJoinLines(rest, sep);
      SplitJoinStep(lines[0], rest, sep);
      assert [lines[0]] + rest == lines;
    }
  }
}
