/**
  What `write` puts in the file, and what `read` makes of it again.

  `write` walks the store's map of sections, and each section's map of
  options, in Go's unspecified map order.  The order it took is recorded as
  a Layout: the sections in the order they were written, each with its
  options in the order they were written.  IsLayoutOf says which layouts a
  walk over a given store can produce; Render is the text of the file for a
  layout.  The lemmas at the end prove that reading that text back gives the
  store again, whichever order was taken, as long as every name and value
  is one the line syntax can carry.
 */
module IniWrite {
  import opened Text
  import opened IniData
  import opened IniRead

  /** One section as written: its name, then its options in the order written. */
  datatype SectionLayout = SectionLayout(name: string, options: seq<(string, string)>)

  type Layout = seq<SectionLayout>

  /** `opts` lists the entries of `m`, each exactly once. */
  ghost predicate Enumerates(opts: seq<(string, string)>, m: map<string, string>) {
    && (forall i :: 0 <= i < |opts| ==> opts[i].0 in m && opts[i].1 == m[opts[i].0])
    && (forall i, j :: 0 <= i < j < |opts| ==> opts[i].0 != opts[j].0)
    && (forall o :: o in m ==> exists i :: 0 <= i < |opts| && opts[i].0 == o)
  }

  /** `write` leaves out the default section when it is empty, and writes every other section. */
  ghost predicate Emitted(d: Data, s: string)
    requires s in d
  {
    !(s == DefaultSection && |d[s]| == 0)
  }

  /** A walk over `d` may produce `layout`: each emitted section once, each with all its options once. */
  ghost predicate IsLayoutOf(layout: Layout, d: Data) {
    && (forall i :: 0 <= i < |layout| ==> layout[i].name in d && Enumerates(layout[i].options, d[layout[i].name]))
    && (forall i, j :: 0 <= i < j < |layout| ==> layout[i].name != layout[j].name)
    && (forall s :: s in d ==> (Emitted(d, s) <==> exists i :: 0 <= i < |layout| && layout[i].name == s))
  }

  /** The `option=value` lines of one section. */
  function OptionLines(opts: seq<(string, string)>): (r: seq<string>)
    ensures |r| == |opts|
    ensures forall i :: 0 <= i < |opts| ==> r[i] == opts[i].0 + "=" + opts[i].1
  {
    if opts == [] then [] else [opts[0].0 + "=" + opts[0].1] + OptionLines(opts[1..])
  }

  /** A section's lines: its header, its options, and the blank line after them. */
  function SectionLines(sl: SectionLayout): (r: seq<string>)
    ensures |r| == |sl.options| + 2
    ensures r[0] == "[" + sl.name + "]" && r[|r| - 1] == ""
    ensures forall i :: 0 <= i < |sl.options| ==> r[i + 1] == sl.options[i].0 + "=" + sl.options[i].1
  {
    ["[" + sl.name + "]"] + OptionLines(sl.options) + [""]
  }

  /** The lines of the whole file: the lines of each section in turn. */
  function RenderLines(layout: Layout): (r: seq<string>)
    ensures r == [] <==> layout == []
    ensures forall i :: 0 <= i < |layout| ==> "[" + layout[i].name + "]" in r
  {
    if layout == [] then [] else SectionLines(layout[0]) + RenderLines(layout[1..])
  }

  /** The text `write` produces for a layout: every line followed by a newline. */
  function Render(layout: Layout): (r: string)
    ensures r == "" <==> layout == []
    ensures layout != [] ==> "[" + layout[0].name + "]\n" <= r && r[|r| - 1] == '\n'
  {
    JoinLinesShape(RenderLines(layout), '\n');
    JoinLines(RenderLines(layout), '\n')
  }

  /** Every name and value of the store can be written as a line and read back unchanged. */
  ghost predicate Writable(d: Data) {
    forall s :: s in d ==> PlainSection(s) && forall o :: o in d[s] ==> PlainOption(o) && PlainValue(d[s][o])
  }

  ghost predicate PlainOptions(opts: seq<(string, string)>) {
    forall i :: 0 <= i < |opts| ==> PlainOption(opts[i].0) && PlainValue(opts[i].1)
  }

  ghost predicate PlainLayout(layout: Layout) {
    forall i :: 0 <= i < |layout| ==> PlainSection(layout[i].name) && PlainOptions(layout[i].options)
  }

  /**
    The inner loop of `write`: one line per option of `m`, in an order the
    method chooses.  Returns the text and, as a ghost, the order taken.
   */
  method WriteOptions(m: map<string, string>) returns (text: string, ghost opts: seq<(string, string)>)
    ensures Enumerates(opts, m)
    ensures text == JoinLines(OptionLines(opts), '\n')
  {
    text := "";
    opts := [];
    ghost var done: set<string> := {};
    var left := m.Keys;
    while left != {}
      invariant done <= m.Keys && left == m.Keys - done
      invariant OptionsSoFar(opts, m, done)
      invariant text == JoinLines(OptionLines(opts), '\n')
      decreases left
    {
      var option :| option in left;
      left := left - {option};
      var line := option + "=" + m[option];
      OptionTextSnoc(opts, (option, m[option]));
      text := text + line + "\n";
      OptionsStep(opts, m, done, option);
      opts := opts + [(option, m[option])];
      done := done + {option};
    }
    assert done == m.Keys;
  }

  /** `opts` lists the entries of `m` whose keys are `done`, each once. */
  ghost predicate OptionsSoFar(opts: seq<(string, string)>, m: map<string, string>, done: set<string>) {
    && (forall i :: 0 <= i < |opts| ==> opts[i].0 in done && opts[i].0 in m && opts[i].1 == m[opts[i].0])
    && (forall i, j :: 0 <= i < j < |opts| ==> opts[i].0 != opts[j].0)
    && (forall o :: o in done && o in m ==> exists i :: 0 <= i < |opts| && opts[i].0 == o)
  }

  lemma OptionsStep(opts: seq<(string, string)>, m: map<string, string>, done: set<string>, o: string)
    requires OptionsSoFar(opts, m, done) && o in m && o !in done
    ensures OptionsSoFar(opts + [(o, m[o])], m, done + {o})
    ensures done + {o} == m.Keys ==> Enumerates(opts + [(o, m[o])], m)
  {
    var l := opts + [(o, m[o])];
    forall x | x in done + {o} && x in m ensures exists i :: 0 <= i < |l| && l[i].0 == x {
      if x == o {
        assert l[|opts|].0 == x;
      } else {
        var i :| 0 <= i < |opts| && opts[i].0 == x;
        assert l[i].0 == x;
      }
    }
  }

  /** The option text grows by one line. */
  lemma OptionTextSnoc(opts: seq<(string, string)>, p: (string, string))
    ensures JoinLines(OptionLines(opts + [p]), '\n') == JoinLines(OptionLines(opts), '\n') + (p.0 + "=" + p.1) + "\n"
  {
    OptionLinesSnoc(opts, p);
    JoinLinesAppend(OptionLines(opts), [p.0 + "=" + p.1], '\n');
  }

  /** The layout of the sections of `d` not `left`: the emitted ones, each once with all its options. */
  ghost predicate LayoutSoFar(layout: Layout, d: Data, left: set<string>) {
    && left <= d.Keys
    && (forall i :: 0 <= i < |layout| ==>
          layout[i].name !in left && layout[i].name in d && Enumerates(layout[i].options, d[layout[i].name]))
    && (forall i, j :: 0 <= i < j < |layout| ==> layout[i].name != layout[j].name)
    && (forall s :: s !in left && s in d ==> (Emitted(d, s) <==> exists i :: 0 <= i < |layout| && layout[i].name == s))
  }

  /** Skipping an empty default section keeps the layout complete for one more section. */
  lemma LayoutSkip(layout: Layout, d: Data, left: set<string>, s: string)
    requires LayoutSoFar(layout, d, left) && s in left && !Emitted(d, s)
    ensures LayoutSoFar(layout, d, left - {s})
  {
  }

  /** Writing one more section, with all its options, keeps the layout complete for one more section. */
  lemma LayoutStep(layout: Layout, d: Data, left: set<string>, sl: SectionLayout)
    requires LayoutSoFar(layout, d, left) && sl.name in left && Emitted(d, sl.name) && Enumerates(sl.options, d[sl.name])
    ensures LayoutSoFar(layout + [sl], d, left - {sl.name})
  {
    var l := layout + [sl];
    var left' := left - {sl.name};
    assert forall i :: 0 <= i < |layout| ==> l[i] == layout[i];
    assert l[|layout|] == sl;
    forall t | t !in left' && t in d ensures Emitted(d, t) <==> exists i :: 0 <= i < |l| && l[i].name == t {
      if t == sl.name {
        assert l[|layout|].name == t;
      } else if Emitted(d, t) {
        var i :| 0 <= i < |layout| && layout[i].name == t;
        assert l[i].name == t;
      }
    }
  }

  lemma LayoutDone(layout: Layout, d: Data)
    requires LayoutSoFar(layout, d, {})
    ensures IsLayoutOf(layout, d)
  {
  }

  /** The rendered text grows by one section's text. */
  lemma RenderSnoc(layout: Layout, sl: SectionLayout)
    ensures Render(layout + [sl]) == Render(layout) + JoinLines(SectionLines(sl), '\n')
  {
    RenderLinesSnoc(layout, sl);
    JoinLinesAppend(RenderLines(layout), SectionLines(sl), '\n');
  }

  /** The state of `write`'s outer loop: the layout so far covers the sections not `left`, and the buffer is its text. */
  ghost predicate WriteSoFar(layout: Layout, d: Data, left: set<string>, buf: string) {
    LayoutSoFar(layout, d, left) && buf == Render(layout)
  }

  lemma WriteSoFarStep(layout: Layout, d: Data, left: set<string>, buf: string, sl: SectionLayout, text: string)
    requires WriteSoFar(layout, d, left, buf) && sl.name in left && Emitted(d, sl.name)
    requires Enumerates(sl.options, d[sl.name]) && text == JoinLines(SectionLines(sl), '\n')
    ensures WriteSoFar(layout + [sl], d, left - {sl.name}, buf + text)
  {
    RenderSnoc(layout, sl);
    LayoutStep(layout, d, left, sl);
  }

  /**
    The body of `write`'s outer loop for one section: the header, one line
    per option in an order of the method's choosing, and a blank line.
   */
  method WriteSection(section: string, m: map<string, string>) returns (text: string, ghost sl: SectionLayout)
    ensures sl.name == section && Enumerates(sl.options, m)
    ensures text == JoinLines(SectionLines(sl), '\n')
  {
    text := "[" + section + "]\n";
    var optionText, opts := WriteOptions(m);
    text := text + optionText;
    text := text + "\n";
    sl := SectionLayout(section, opts);
    SectionText(sl, optionText);
  }

  /**
    The outer loop of `write`: every section of `d` except an empty default
    one, in an order the method chooses.  Returns the text and, as a ghost,
    the layout taken.
   */
  method WriteStore(d: Data) returns (text: string, ghost layout: Layout)
    ensures IsLayoutOf(layout, d) && text == Render(layout)
    ensures Writable(d) ==> var r := ReadText(map[], text); r.error == None && r.state.data == Written(d)
    ensures Writable(d) ==> var r := ReadText(d, text); r.error == None && r.state.data == d
  {
    text := "";
    layout := [];
    var left := d.Keys;
    while left != {}
      invariant WriteSoFar(layout, d, left, text)
      decreases left
    {
      var section :| section in left;
      var sectionmap := d[section];
      if section == DefaultSection && |sectionmap| == 0 {
        LayoutSkip(layout, d, left, section);
        left := left - {section};
        continue;
      }
      var sectionText, sl := WriteSection(section, sectionmap);
      WriteSoFarStep(layout, d, left, text, sl, sectionText);
      text := text + sectionText;
      layout := layout + [sl];
      left := left - {section};
    }
    LayoutDone(layout, d);
    if Writable(d) {
      ReadBackWritten(d, layout);
      ReadBackIntoSame(d, layout);
    }
  }

  lemma {:induction false} OptionLinesSnoc(opts: seq<(string, string)>, p: (string, string))
    ensures OptionLines(opts + [p]) == OptionLines(opts) + [p.0 + "=" + p.1]
  {
    var l := OptionLines(opts + [p]);
    var r := OptionLines(opts) + [p.0 + "=" + p.1];
    assert |l| == |r|;
    forall i | 0 <= i < |l| ensures l[i] == r[i] {
      if i < |opts| {
        assert (opts + [p])[i] == opts[i];
      }
    }
  }

  lemma {:induction false} RenderLinesSnoc(layout: Layout, sl: SectionLayout)
    ensures RenderLines(layout + [sl]) == RenderLines(layout) + SectionLines(sl)
    decreases |layout|
  {
    if layout == [] {
      assert [] + [sl] == [sl];
      assert [sl][1..] == [];
    } else {
      assert (layout + [sl])[0] == layout[0];
      assert (layout + [sl])[1..] == layout[1..] + [sl];
      RenderLinesSnoc(layout[1..], sl);
    }
  }

  /** The text of one section is its header line, its option text and a blank line. */
  lemma SectionText(sl: SectionLayout, optionText: string)
    requires optionText == JoinLines(OptionLines(sl.options), '\n')
    ensures JoinLines(SectionLines(sl), '\n') == "[" + sl.name + "]\n" + optionText + "\n"
  {
    var h := "[" + sl.name + "]";
    var ol := OptionLines(sl.options);
    JoinLinesAppend([h] + ol, [""], '\n');
    JoinLinesAppend([h], ol, '\n');
    assert JoinLines([h], '\n') == h + "\n";
    assert JoinLines([""], '\n') == "\n";
  }

  // ---------------------------------------------------------------------
  // Reading the rendered lines

  /** What reading the lines of a layout does to a store: each section added, then its options set in order. */
  function MergeOptions(d: Data, s: string, opts: seq<(string, string)>): Data
    decreases |opts|
  {
    if opts == [] then d else MergeOptions(AddOption(d, s, opts[0].0, opts[0].1).0, s, opts[1..])
  }

  function Merge(d: Data, layout: Layout): Data
    decreases |layout|
  {
    if layout == [] then d
    else
      var s := layout[0].name;
      Merge(MergeOptions(AddSection(d, s).0, s, layout[0].options), layout[1..])
  }

  /** Reading the option lines of plain options and values sets them in order, without error. */
  lemma {:induction false} ReadOptionLines(st: ReadState, opts: seq<(string, string)>)
    requires st.section != "" && PlainOptions(opts)
    ensures var r := ReadLines(st, OptionLines(opts));
            r.error == None && r.state.data == MergeOptions(st.data, st.section, opts) && r.state.section == st.section
    decreases |opts|
  {
    if opts != [] {
      var o, v := opts[0].0, opts[0].1;
      var rest := opts[1..];
      ReadOptionOf(st, o, v);
      var st' := ReadState(AddOption(st.data, st.section, o, v).0, st.section, o);
      ReadLinesCons(st, o + "=" + v, OptionLines(rest), st');
      assert PlainOptions(rest) by {
        forall i | 0 <= i < |rest| ensures PlainOption(rest[i].0) && PlainValue(rest[i].1) {
          assert rest[i] == opts[i + 1];
        }
      }
      ReadOptionLines(st', rest);
    }
  }

  /** The blank line ending a section changes nothing. */
  lemma ReadBlankLine(st: ReadState)
    ensures ReadLines(st, [""]) == ReadOutcome(st, None)
  {
    SkippedLine(st, "");
    ReadLinesCons(st, "", [], st);
    assert [""] + [] == [""];
  }

  /** A section's lines as the header followed by the rest. */
  lemma SectionLinesShape(sl: SectionLayout)
    ensures SectionLines(sl) == ["[" + sl.name + "]"] + (OptionLines(sl.options) + [""])
  {
  }

  /** Reading one plain section as written adds it and sets its options, without error. */
  lemma ReadSectionLines(st: ReadState, sl: SectionLayout)
    requires PlainSection(sl.name) && PlainOptions(sl.options)
    ensures var r := ReadLines(st, SectionLines(sl)); var s := sl.name;
            r.error == None && r.state.data == MergeOptions(AddSection(st.data, s).0, s, sl.options)
  {
    var s := sl.name;
    var h := "[" + s + "]";
    var ol := OptionLines(sl.options);
    ReadHeaderOf(st, s);
    var st1 := ReadState(AddSection(st.data, s).0, s, "");
    SectionLinesShape(sl);
    ReadLinesCons(st, h, ol + [""], st1);
    assert ReadLines(st, SectionLines(sl)) == ReadLines(st1, ol + [""]);
    ReadOptionLines(st1, sl.options);
    var r1 := ReadLines(st1, ol);
    assert r1.error == None && r1.state.data == MergeOptions(st1.data, s, sl.options);
    ReadLinesAppend(st1, ol, [""]);
    assert ReadLines(st1, ol + [""]) == ReadLines(r1.state, [""]);
    ReadBlankLine(r1.state);
  }

  /** Reading the lines of a plain layout merges every section into the store, without error. */
  lemma {:induction false} ReadRenderLines(st: ReadState, layout: Layout)
    requires PlainLayout(layout)
    ensures var r := ReadLines(st, RenderLines(layout));
            r.error == None && r.state.data == Merge(st.data, layout)
    decreases |layout|
  {
    if layout != [] {
      var rest := layout[1..];
      ReadLinesAppend(st, SectionLines(layout[0]), RenderLines(rest));
      ReadSectionLines(st, layout[0]);
      PlainLayoutParts(layout);
      ReadRenderLines(ReadLines(st, SectionLines(layout[0])).state, rest);
    }
  }

  /** The first section of a plain layout is plain, and so is the rest of it. */
  lemma PlainLayoutParts(layout: Layout)
    requires PlainLayout(layout) && layout != []
    ensures PlainSection(layout[0].name) && PlainOptions(layout[0].options) && PlainLayout(layout[1..])
  {
    var rest := layout[1..];
    forall i | 0 <= i < |rest| ensures PlainSection(rest[i].name) && PlainOptions(rest[i].options) {
      assert rest[i] == layout[i + 1];
    }
  }

  /** No line of a plain section holds a newline. */
  lemma SectionLinesNoNewline(sl: SectionLayout)
    requires PlainSection(sl.name) && PlainOptions(sl.options)
    ensures forall i :: 0 <= i < |SectionLines(sl)| ==> '\n' !in SectionLines(sl)[i]
  {
    var h := "[" + sl.name + "]";
    var ol := OptionLines(sl.options);
    var lines := SectionLines(sl);
    assert lines == [h] + ol + [""];
    forall i | 0 <= i < |lines| ensures '\n' !in lines[i] {
      if i == 0 {
        assert lines[i] == h;
      } else if i < |lines| - 1 {
        assert lines[i] == ol[i - 1];
      } else {
        assert lines[i] == "";
      }
    }
  }

  lemma {:induction false} RenderLinesNoNewline(layout: Layout)
    requires PlainLayout(layout)
    ensures forall i :: 0 <= i < |RenderLines(layout)| ==> '\n' !in RenderLines(layout)[i]
    decreases |layout|
  {
    if layout != [] {
      var rest := layout[1..];
      PlainLayoutParts(layout);
      RenderLinesNoNewline(rest);
      SectionLinesNoNewline(layout[0]);
      NoneHoldsAppend(SectionLines(layout[0]), RenderLines(rest), '\n');
    }
  }

  /** Reading the text of a plain layout into any store merges the layout into it, without error. */
  lemma ReadRender(d0: Data, layout: Layout)
    requires PlainLayout(layout)
    ensures var r := ReadText(d0, Render(layout));
            r.error == None && r.state.data == Merge(d0, layout)
  {
    var lines := RenderLines(layout);
    RenderLinesNoNewline(layout);
    SplitJoinLines(lines, '\n');
    ReadLinesAppend(Initial(d0), lines, [""]);
    ReadRenderLines(Initial(d0), layout);
    ReadBlankLine(ReadLines(Initial(d0), lines).state);
  }

  // ---------------------------------------------------------------------
  // What the merge amounts to

  /** The options of a section as a map; a later entry wins over an earlier one. */
  function OptionMap(opts: seq<(string, string)>): map<string, string>
    decreases |opts|
  {
    if opts == [] then map[] else map[opts[0].0 := opts[0].1] + OptionMap(opts[1..])
  }

  lemma MapUnionUpdate(m: map<string, string>, o: string, v: string, r: map<string, string>)
    ensures m[o := v] + r == m + (map[o := v] + r)
  {
  }

  /** Setting folded options one after another in a present section is one map union. */
  lemma {:induction false} MergeOptionsIs(d: Data, s: string, opts: seq<(string, string)>)
    requires s in d && IsLowerCase(s)
    requires forall i :: 0 <= i < |opts| ==> IsLowerCase(opts[i].0)
    ensures MergeOptions(d, s, opts) == d[s := d[s] + OptionMap(opts)]
    decreases |opts|
  {
    if opts == [] {
      assert d[s] + map[] == d[s];
      assert d[s := d[s]] == d;
    } else {
      var o, v := opts[0].0, opts[0].1;
      var rest := opts[1..];
      AddOptionPresent(d, s, o, v);
      var d' := d[s := d[s][o := v]];
      assert forall i :: 0 <= i < |rest| ==> IsLowerCase(rest[i].0) by {
        forall i | 0 <= i < |rest| ensures IsLowerCase(rest[i].0) { assert rest[i] == opts[i + 1]; }
      }
      MergeOptionsIs(d', s, rest);
      var x := d[s][o := v];
      var r := OptionMap(rest);
      assert OptionMap(opts) == map[o := v] + r;
      MapUnionUpdate(d[s], o, v, r);
      UpdateTwice(d, s, x, x + r);
    }
  }

  /** Entries that all agree with `m` make up a part of `m`: the listed keys, with their values in `m`. */
  lemma {:induction false} OptionMapAgrees(opts: seq<(string, string)>, m: map<string, string>)
    requires forall i :: 0 <= i < |opts| ==> opts[i].0 in m && opts[i].1 == m[opts[i].0]
    ensures forall o :: o in OptionMap(opts) <==> exists i :: 0 <= i < |opts| && opts[i].0 == o
    ensures forall o :: o in OptionMap(opts) ==> o in m && OptionMap(opts)[o] == m[o]
    decreases |opts|
  {
    if opts != [] {
      var rest := opts[1..];
      assert forall i :: 0 <= i < |rest| ==> rest[i] == opts[i + 1];
      OptionMapAgrees(rest, m);
      forall o | o in OptionMap(opts) ensures exists i :: 0 <= i < |opts| && opts[i].0 == o {
        if o != opts[0].0 {
          var i :| 0 <= i < |rest| && rest[i].0 == o;
          assert opts[i + 1].0 == o;
        }
      }
    }
  }

  /** A listing of all of `m` gives back `m`. */
  lemma OptionMapOfEnumeration(opts: seq<(string, string)>, m: map<string, string>)
    requires Enumerates(opts, m)
    ensures OptionMap(opts) == m
  {
    OptionMapAgrees(opts, m);
  }

  lemma UpdateTwice(d: Data, s: string, a: map<string, string>, b: map<string, string>)
    ensures d[s := a][s := b] == d[s := b]
  {
  }

  /** Reading one written section adds its options to what the store held under that name. */
  lemma MergeSectionIs(d: Data, sl: SectionLayout, m: map<string, string>)
    requires IsLowerCase(sl.name) && Enumerates(sl.options, m)
    requires forall o :: o in m ==> IsLowerCase(o)
    ensures var s := sl.name;
            MergeOptions(AddSection(d, s).0, s, sl.options) == d[s := (if s in d then d[s] else map[]) + m]
  {
    var s := sl.name;
    var opts := sl.options;
    ToLowerFixedIff(s);
    var old_s: map<string, string> := if s in d then d[s] else map[];
    var d1 := AddSection(d, s).0;
    assert d1 == d[s := old_s];
    assert forall i :: 0 <= i < |opts| ==> IsLowerCase(opts[i].0) by {
      forall i | 0 <= i < |opts| ensures IsLowerCase(opts[i].0) {
        assert opts[i].0 in m;
      }
    }
    MergeOptionsIs(d1, s, opts);
    OptionMapOfEnumeration(opts, m);
    assert MergeOptions(d1, s, opts) == d1[s := old_s + m];
    UpdateTwice(d, s, old_s, old_s + m);
  }

  /** The section names of a layout. */
  function Names(layout: Layout): set<string> {
    set i | 0 <= i < |layout| :: layout[i].name
  }

  /** `d0` with the sections of `d` named in `names` added on top, option by option. */
  function Overlay(d0: Data, d: Data, names: set<string>): Data
    requires names <= d.Keys
  {
    map t | t in d0.Keys + names :: if t in names then (if t in d0 then d0[t] else map[]) + d[t] else d0[t]
  }

  /** Where a name is in an overlay, and what it holds there. */
  lemma OverlayAt(d0: Data, d: Data, names: set<string>, t: string)
    requires names <= d.Keys
    ensures var o := Overlay(d0, d, names);
            && (t in o <==> t in d0 || t in names)
            && (t in o ==> o[t] == if t in names then (if t in d0 then d0[t] else map[]) + d[t] else d0[t])
  {
  }

  lemma UnionAgain(a: map<string, string>, b: map<string, string>)
    ensures a + b + b == a + b
  {
  }

  lemma OverlayStep(d0: Data, d: Data, s: string, names: set<string>)
    requires s in d && names <= d.Keys
    ensures Overlay(d0[s := (if s in d0 then d0[s] else map[]) + d[s]], d, names) == Overlay(d0, d, {s} + names)
  {
    var base := if s in d0 then d0[s] else map[];
    var d1 := d0[s := base + d[s]];
    var l := Overlay(d1, d, names);
    var r := Overlay(d0, d, {s} + names);
    forall t ensures (t in l <==> t in r) && (t in l ==> l[t] == r[t]) {
      OverlayAt(d1, d, names, t);
      OverlayAt(d0, d, {s} + names, t);
      if t == s {
        UnionAgain(base, d[s]);
      }
    }
  }

  /** Written sections only: each present in `d`, with a folded name and all its options listed. */
  ghost predicate DrawnFrom(layout: Layout, d: Data) {
    forall i :: 0 <= i < |layout| ==>
      layout[i].name in d && IsLowerCase(layout[i].name) && Enumerates(layout[i].options, d[layout[i].name])
  }

  /** Reading back a layout drawn from `d` puts each of its sections of `d` on top of the store read into. */
  lemma {:induction false} MergeOverlay(d0: Data, d: Data, layout: Layout)
    requires DrawnFrom(layout, d) && KeysFolded(d)
    ensures Names(layout) <= d.Keys
    ensures Merge(d0, layout) == Overlay(d0, d, Names(layout))
    decreases |layout|
  {
    if layout == [] {
      assert Overlay(d0, d, {}) == d0;
    } else {
      var sl := layout[0];
      var s := sl.name;
      var rest := layout[1..];
      assert forall i :: 0 <= i < |rest| ==> rest[i] == layout[i + 1];
      assert Names(layout) == {s} + Names(rest) by {
        forall t | t in Names(layout) ensures t in {s} + Names(rest) {
          var i :| 0 <= i < |layout| && layout[i].name == t;
          if i > 0 { assert rest[i - 1].name == t; }
        }
      }
      MergeSectionIs(d0, sl, d[s]);
      MergeOverlay(MergeOptions(AddSection(d0, s).0, s, sl.options), d, rest);
      OverlayStep(d0, d, s, Names(rest));
    }
  }

  lemma OverlayOntoEmpty(d: Data, names: set<string>)
    requires names == Written(d).Keys
    ensures Overlay(map[], d, names) == Written(d)
  {
    var o := Overlay(map[], d, names);
    forall s | s in o ensures o[s] == Written(d)[s] {
      assert map[] + d[s] == d[s];
    }
  }

  lemma OverlayOntoSelf(d: Data, names: set<string>)
    requires names <= d.Keys
    ensures Overlay(d, d, names) == d
  {
    var o := Overlay(d, d, names);
    forall s | s in o ensures o[s] == d[s] {
      assert d[s] + d[s] == d[s];
    }
  }

  /** The sections `write` emits for `d`. */
  ghost function Written(d: Data): Data {
    map s | s in d && Emitted(d, s) :: d[s]
  }

  /** A walk over a writable store produces a plain layout drawn from it. */
  lemma WritableLayout(d: Data, layout: Layout)
    requires Writable(d) && IsLayoutOf(layout, d)
    ensures PlainLayout(layout) && DrawnFrom(layout, d) && KeysFolded(d)
  {
    forall i | 0 <= i < |layout| ensures PlainSection(layout[i].name) && PlainOptions(layout[i].options) {
      var opts := layout[i].options;
      forall k | 0 <= k < |opts| ensures PlainOption(opts[k].0) && PlainValue(opts[k].1) {
        assert opts[k].0 in d[layout[i].name];
      }
    }
  }

  /** The sections a walk writes are exactly the emitted ones. */
  lemma LayoutNames(d: Data, layout: Layout)
    requires IsLayoutOf(layout, d)
    ensures Names(layout) == Written(d).Keys
  {
    forall s | s in Written(d) ensures s in Names(layout) {
      var i :| 0 <= i < |layout| && layout[i].name == s;
    }
  }

  /**
    Round trip: reading the file written for a writable store into an empty
    store gives back the store, less an empty default section, in whatever
    order the sections and options were written.
   */
  lemma ReadBackWritten(d: Data, layout: Layout)
    requires Writable(d) && IsLayoutOf(layout, d)
    ensures var r := ReadText(map[], Render(layout));
            r.error == None && r.state.data == Written(d)
  {
    WritableLayout(d, layout);
    ReadRender(map[], layout);
    MergeOverlay(map[], d, layout);
    LayoutNames(d, layout);
    OverlayOntoEmpty(d, Names(layout));
  }

  /** Reading the file just written for a writable store into that store changes nothing. */
  lemma ReadBackIntoSame(d: Data, layout: Layout)
    requires Writable(d) && IsLayoutOf(layout, d)
    ensures var r := ReadText(d, Render(layout));
            r.error == None && r.state.data == d
  {
    WritableLayout(d, layout);
    ReadRender(d, layout);
    MergeOverlay(d, d, layout);
    OverlayOntoSelf(d, Names(layout));
  }

  lemma EmptySectionLines(p: (string, string))
    ensures SectionLines(SectionLayout("", [p])) == ["[]"] + ([p.0 + "=" + p.1] + [""])
  {
    var ol := OptionLines([p]);
    assert |ol| == 1 && ol[0] == p.0 + "=" + p.1;
    assert ol == [p.0 + "=" + p.1];
    assert "[" + "" + "]" == "[]";
  }

  /** The header `[]` makes the empty name the current section. */
  lemma ReadEmptyHeader(st: ReadState)
    ensures ReadLine(st, "[]") == Next(ReadState(AddSection(st.data, "").0, "", ""))
  {
    var h := "[]";
    TrimSpaceOfTrimmed(h);
    assert !StartsWithRem(h);
    assert h[1..|h| - 1] == "";
  }

  /**
    A section with the empty name is written as the header `[]`, and the
    option line after it stops the parser with BlankSection: such a store is
    not read back.
   */
  lemma EmptySectionNotReadBack(st: ReadState, o: string, v: string)
    requires PlainOption(o) && PlainValue(v)
    ensures ReadLines(st, SectionLines(SectionLayout("", [(o, v)]))).error == Some(ReadError(BlankSection, o + "=" + v))
  {
    var l := o + "=" + v;
    ReadEmptyHeader(st);
    var st1 := ReadState(AddSection(st.data, "").0, "", "");
    EmptySectionLines((o, v));
    ReadLinesCons(st, "[]", [l] + [""], st1);
    OptionLineShape(o, v);
    BlankSectionLine(st1, l);
    ReadLinesStop(st1, l, [""], ReadError(BlankSection, l));
  }
}
