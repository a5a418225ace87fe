/**
  The INI configuration provider: an object holding the path of its file,
  the store read from it, and (standing for the file on disk) the file's
  current text.  Each method changes the store step by step as the provider
  does, and is proved to end in the state the pure functions of IniData,
  IniRead, IniWrite and IniSeed describe; what those functions promise is
  proved there.
 */
module IniProvider {
  import opened Text
  import opened IniData
  import opened IniRead
  import opened IniWrite
  import opened IniSeed
  import opened ConfigItem

  class IniConfigProvider {
    const iniPath: string
    var data: Data
    /** The contents of the file at iniPath: what Initialize reads and what write replaces. */
    var fileText: string

    /** The store only ever holds folded section and option names. */
    ghost predicate Valid()
      reads this
    {
      KeysFolded(data)
    }

    /** NewIniConfigProvider: an empty store for the file at `path`, which holds `file`. */
    constructor (path: string, file: string)
      ensures iniPath == path && data == map[] && fileText == file
      ensures Valid()
    {
      iniPath := path;
      data := map[];
      fileText := file;
    }

    /** addSection: creates the folded section when absent; says whether it did. */
    method AddSection(section: string) returns (added: bool)
      modifies this
      ensures (data, added) == IniData.AddSection(old(data), section)
      ensures fileText == old(fileText)
    {
      var s := ToLower(section);
      if s in data {
        return false;
      }
      data := data[s := map[]];
      return true;
    }

    /** addOption: makes sure the section exists, then sets the folded option; says whether it was new. */
    method AddOption(section: string, option: string, value: string) returns (added: bool)
      modifies this
      ensures (data, added) == IniData.AddOption(old(data), section, option, value)
      ensures fileText == old(fileText)
    {
      var _ := AddSection(section);
      var s := ToLower(section);
      var o := ToLower(option);
      var ok := o in data[s];
      data := data[s := data[s][o := value]];
      added := !ok;
    }

    /** GetString: the item's value, looked up under its section (empty means default) and name, folded. */
    function GetString(item: ConfigurationItem): (r: Result<string, GetError>)
      reads this, item
      ensures var s := SectionKey(item.GetSection()); var o := ToLower(item.GetName());
              && (r.Ok? <==> s in data && o in data[s])
              && (r.Ok? ==> r.value == data[s][o])
              && (r.Err? ==> r.error.reason == if s in data then OptionNotFound else SectionNotFound)
    {
      GetRawString(data, item.GetSection(), item.GetName())
    }

    /** GetInt: the lookup error, or the Atoi of the value, or CouldNotParse with the item's own names. */
    function GetInt(item: ConfigurationItem): (r: Result<int, GetError>)
      reads this, item
      ensures GetString(item).Err? ==> r == Err(GetString(item).error)
      ensures GetString(item).Ok? ==>
                var sv := GetString(item).value;
                && (r.Ok? <==> ParseInt(sv).Some?)
                && (r.Ok? ==> r.value == ParseInt(sv).value && IntMin <= r.value <= IntMax)
                && (r.Err? ==> r.error == GetError(CouldNotParse, "int", sv, item.GetSection(), item.GetName()))
    {
      GetIntAt(data, item.GetSection(), item.GetName())
    }

    /** GetBool: the lookup error, or the table value of the folded text, or CouldNotParse with the item's own names. */
    function GetBool(item: ConfigurationItem): (r: Result<bool, GetError>)
      reads this, item
      ensures GetString(item).Err? ==> r == Err(GetString(item).error)
      ensures GetString(item).Ok? ==>
                var sv := GetString(item).value;
                && (r.Ok? <==> ToLower(sv) in TrueStrings + FalseStrings)
                && (r.Ok? ==> (r.value <==> ToLower(sv) in TrueStrings))
                && (r.Err? ==> r.error == GetError(CouldNotParse, "bool", sv, item.GetSection(), item.GetName()))
    {
      GetBoolAt(data, item.GetSection(), item.GetName())
    }

    /**
      write: renders every section except an empty default one, in an order
      of its own choosing, and replaces the file's text.  The order taken is
      returned as a ghost layout.
     */
    method Write() returns (ghost layout: Layout)
      modifies this
      ensures data == old(data)
      ensures IsLayoutOf(layout, data) && fileText == Render(layout)
    {
      var text;
      text, layout := WriteStore(data);
      fileText := text;
    }

    /**
      SetValue: under the item's folded section (empty means default) and
      folded name, stores the value and writes the file, if the section
      exists; otherwise changes nothing.
     */
    method SetValue(item: ConfigurationItem, value: string) returns (ghost layout: Layout)
      modifies this
      ensures var s := SectionKey(item.GetSection()); var o := ToLower(item.GetName());
              if s in old(data) then
                && data == old(data)[s := old(data)[s][o := value]]
                && GetString(item) == Ok(value)
                && IsLayoutOf(layout, data) && fileText == Render(layout)
              else data == old(data) && fileText == old(fileText)
    {
      layout := [];
      var section := item.GetSection();
      var option := item.GetName();
      if section == "" {
        section := "default";
      }
      section := ToLower(section);
      option := ToLower(option);
      if section in data {
        data := data[section := data[section][option := value]];
        layout := Write();
      }
    }

    /**
      read: the loop over the lines of `text`, carrying the current section
      (initially default) and option.  Stops at the first line it cannot
      accept and returns its error.
     */
    method Read(text: string) returns (err: Option<ReadError>)
      modifies this
      ensures var r := ReadText(old(data), text);
              data == r.state.data && err == r.error
      ensures fileText == old(fileText)
    {
      var lines := Split(text, '\n');
      err := ReadLinesLoop(lines);
    }

    /** read's loop over the lines of the file, from section "default" and no option. */
    method ReadLinesLoop(lines: seq<string>) returns (err: Option<ReadError>)
      modifies this
      ensures var r := ReadLines(Initial(old(data)), lines);
              data == r.state.data && err == r.error
      ensures fileText == old(fileText)
    {
      var section, option := DefaultSection, "";
      ghost var goal := ReadLines(Initial(data), lines);
      var k := 0;
      while k < |lines|
        invariant 0 <= k <= |lines|
        invariant fileText == old(fileText)
        invariant ReadLines(ReadState(data, section, option), lines[k..]) == goal
        decreases |lines| - k
      {
        var stop;
        section, option, stop := ReadOneLine(section, option, lines, k, goal);
        if stop.Some? {
          return stop;
        }
        k := k + 1;
      }
      ReadLinesNil(ReadState(data, section, option), lines[k..]);
      return None;
    }

    /**
      The body of read's loop for raw line `k` of `lines`: the new section
      and option, or the error that stops the loop.  When reading the lines
      from this one on comes to `goal`, reading the lines after it from the
      state it leaves comes to `goal` too, or it stops where `goal` does.
     */
    method ReadOneLine(section: string, option: string, lines: seq<string>, k: nat, ghost goal: ReadOutcome)
      returns (section': string, option': string, stop: Option<ReadError>)
      requires k < |lines|
      requires ReadLines(ReadState(data, section, option), lines[k..]) == goal
      modifies this
      ensures stop.Some? ==> data == goal.state.data && stop == goal.error
      ensures stop.None? ==> ReadLines(ReadState(data, section', option'), lines[k + 1..]) == goal
      ensures fileText == old(fileText)
    {
      ghost var st := ReadState(data, section, option);
      var raw := lines[k];
      ghost var rest := lines[k + 1..];
      assert lines[k..] == [raw] + rest;
      section', option', stop := ReadTrimmedLine(section, option, TrimSpace(raw));
      if stop.Some? {
        ReadLinesStop(st, raw, rest, stop.value);
      } else {
        ReadLinesCons(st, raw, rest, ReadState(data, section', option'));
      }
    }

    /** The outer switch of read's loop, on a trimmed line. */
    method ReadTrimmedLine(section: string, option: string, l: string) returns (section': string, option': string, stop: Option<ReadError>)
      modifies this
      ensures var r := ReadTrimmed(ReadState(old(data), section, option), l);
              if r.Stop? then stop == Some(r.error) && data == old(data)
              else stop == None && ReadState(data, section', option') == r.state
      ensures fileText == old(fileText)
    {
      section', option', stop := section, option, None;
      if |l| == 0 || l[0] == '#' || l[0] == ';' || (|l| >= 3 && ToLower(l[..3]) == "rem") {
        // blank line or comment
      } else if l[0] == '[' && l[|l| - 1] == ']' {
        option' := "";
        section' := TrimSpace(l[1..|l| - 1]);
        var _ := AddSection(section');
      } else if section == "" {
        stop := Some(ReadError(BlankSection, l));
      } else {
        option', stop := ReadContentLine(section, option, l);
      }
    }

    /** The inner switch of read's loop: an option line, a continuation line, or an error. */
    method ReadContentLine(section: string, option: string, l: string) returns (option': string, stop: Option<ReadError>)
      requires section != ""
      modifies this
      ensures var st := ReadState(old(data), section, option); var i := IndexAny(l, "=:");
              && (i > 0 ==> stop == None && ReadState(data, section, option') == Assignment(st, l, i))
              && (i <= 0 && option != "" ==> stop == None && ReadState(data, section, option') == Continuation(st, l))
              && (i <= 0 && option == "" ==> stop == Some(ReadError(CouldNotParse, l)) && data == old(data))
      ensures fileText == old(fileText)
    {
      option', stop := option, None;
      var i := IndexAny(l, "=:");
      if i > 0 {
        option' := TrimSpace(l[..i]);
        var v := StripComments(l[i + 1..]);
        var _ := AddOption(section, option', TrimSpace(v));
      } else if section != "" && option != "" {
        var prev := match GetRawString(data, section, option) case Ok(p) => p case Err(_) => "";
        var v := StripComments(l);
        var _ := AddOption(section, option, prev + "\n" + TrimSpace(v));
      } else {
        stop := Some(ReadError(CouldNotParse, l));
      }
    }

    /**
      The seeding loop of Initialize: every section of the collection is
      added, and every item not found under its exact section and name gets
      its default.  Says whether any option was added; the order taken is
      returned as a ghost.
     */
    method SeedItems(c: Declared) returns (added: bool, ghost order: seq<(string, seq<string>)>)
      modifies this
      ensures IsSeedOrder(order, c)
      ensures (data, added) == Seed(old(data), SeedSteps(order, c))
      ensures fileText == old(fileText)
    {
      added := false;
      order := [];
      ghost var done: set<string> := {};
      var left := c.Keys;
      while left != {}
        invariant done <= c.Keys && left == c.Keys - done
        invariant fileText == old(fileText)
        invariant SeedSoFar(old(data), order, c, done, data, added)
        decreases left
      {
        var section :| section in left;
        left := left - {section};
        ghost var d := data;
        var _ := AddSection(section);
        var more, ks := SeedSection(section, c[section]);
        SeedSoFarStep(old(data), order, c, done, section, ks, d, added, data, more);
        added := added || more;
        order := order + [(section, ks)];
        done := done + {section};
      }
      assert done == c.Keys;
      SeedSoFarDone(old(data), order, c, data, added);
    }

    /** The inner loop of the seeding: the items of one section, each added unless found exactly. */
    method SeedSection(section: string, items: map<string, (string, string)>) returns (added: bool, ghost ks: seq<string>)
      modifies this
      ensures ListsOnce(ks, items.Keys)
      ensures (data, added) == Seed(old(data), ItemSteps(section, ks, items))
      ensures fileText == old(fileText)
    {
      added := false;
      ks := [];
      ghost var done: set<string> := {};
      var names := items.Keys;
      while names != {}
        invariant done <= items.Keys && names == items.Keys - done
        invariant fileText == old(fileText)
        invariant KeysSoFar(ks, items.Keys, done)
        invariant (data, added) == Seed(old(data), ItemSteps(section, ks, items))
        decreases names
      {
        var k :| k in names;
        names := names - {k};
        var name := items[k].0;
        var value := items[k].1;
        SeedItemStep(old(data), section, ks, k, items, data, added);
        if !(section in data && name in data[section]) {
          var _ := AddOption(section, name, value);
          added := true;
        }
        KeysStep(ks, items.Keys, done, k);
        ks := ks + [k];
        done := done + {k};
      }
      assert done == items.Keys;
      KeysDone(ks, items.Keys);
    }

    /**
      Initialize: reads the file into the store (an error there is returned;
      the provider itself panics on it), seeds the registry's defaults, and
      writes the file back only when some option was added.
     */
    method Initialize(c: Declared) returns (err: Option<ReadError>, ghost order: seq<(string, seq<string>)>, ghost layout: Layout)
      requires Valid()
      modifies this
      ensures Valid()
      ensures var r := ReadText(old(data), old(fileText));
              && err == r.error
              && (err.Some? ==> data == r.state.data && fileText == old(fileText))
              && (err.None? ==> IsSeedOrder(order, c))
              && (err.None? ==>
                    var seeded := Seed(r.state.data, SeedSteps(order, c));
                    && data == seeded.0
                    && (seeded.1 ==> IsLayoutOf(layout, data) && fileText == Render(layout))
                    && (!seeded.1 ==> fileText == old(fileText)))
      ensures err.None? ==>
                forall s :: s in c ==> ToLower(s) in data && forall k :: k in c[s] ==> ToLower(c[s][k].0) in data[ToLower(s)]
    {
      order, layout := [], [];
      err := Read(fileText);
      if err.Some? {
        return;
      }
      ghost var d := data;
      var added;
      added, order := SeedItems(c);
      DeclaredSeeded(d, order, c);
      if added {
        layout := Write();
      }
    }
  }
}
