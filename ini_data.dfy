/**
  The INI provider's in-memory store as a value: section -> option -> raw
  string, together with the pure logic of its upserts (addSection,
  addOption), its lookup (getRawString) and its typed parses (GetBool,
  GetInt).  The provider class in IniProvider keeps one of these maps in a
  field and its methods are proved to act as the functions here say.
 */
module IniData {
  import opened Text

  datatype Option<+T> = None | Some(value: T)

  datatype Result<+T, +E> = Ok(value: T) | Err(error: E)

  /** Maps sections to options to values. */
  type Data = map<string, map<string, string>>

  /** The name of the default section (lower case). */
  const DefaultSection: string := "default"

  /** The provider's reason codes, in the order their iota constants are declared. */
  datatype Reason = SectionNotFound | OptionNotFound | MaxDepthReached | BlankSection | CouldNotParse

  function ReasonCode(r: Reason): (c: int)
    ensures 0 <= c <= 4
  {
    match r
    case SectionNotFound => 0
    case OptionNotFound => 1
    case MaxDepthReached => 2
    case BlankSection => 3
    case CouldNotParse => 4
  }

  /** Each reason has the value of its iota constant, so distinct reasons have distinct codes. */
  lemma ReasonCodesAreIota()
    ensures [ReasonCode(SectionNotFound), ReasonCode(OptionNotFound), ReasonCode(MaxDepthReached),
             ReasonCode(BlankSection), ReasonCode(CouldNotParse)] == [0, 1, 2, 3, 4]
    ensures forall a: Reason, b: Reason :: ReasonCode(a) == ReasonCode(b) ==> a == b
  {
  }

  /** An error of a lookup or of a typed parse. */
  datatype GetError = GetError(reason: Reason, valueType: string, value: string, section: string, option: string)

  /** An error of the parser, with the (trimmed) line that caused it. */
  datatype ReadError = ReadError(reason: Reason, line: string)

  /** The store's invariant: every section and option key is folded to lower case. */
  ghost predicate KeysFolded(d: Data) {
    forall s :: s in d ==> IsLowerCase(s) && forall o :: o in d[s] ==> IsLowerCase(o)
  }

  /** addSection: creates the folded section if it is absent; says whether it did. */
  function AddSection(d: Data, section: string): (r: (Data, bool))
    ensures r.1 <==> ToLower(section) !in d
    ensures r.0.Keys == d.Keys + {ToLower(section)}
    ensures forall s :: s in d ==> s in r.0 && r.0[s] == d[s]
    ensures r.1 ==> r.0[ToLower(section)] == map[]
    ensures KeysFolded(d) ==> KeysFolded(r.0)
  {
    var s := ToLower(section);
    if s in d then (d, false) else (d[s := map[]], true)
  }

  /** A second addSection of the same name changes nothing and reports nothing new. */
  lemma AddSectionTwice(d: Data, section: string)
    ensures var d1 := AddSection(d, section).0;
            AddSection(d1, section) == (d1, false)
  {
  }

  /**
    addOption: makes sure the folded section exists, then sets the folded
    option to `value`; says whether the option was new.
   */
  function AddOption(d: Data, section: string, option: string, value: string): (r: (Data, bool))
    ensures var s := ToLower(section); var o := ToLower(option);
            && r.0.Keys == d.Keys + {s}
            && r.0[s] == (if s in d then d[s] else map[])[o := value]
            && (forall t :: t in d && t != s ==> r.0[t] == d[t])
            && (r.1 <==> !(s in d && o in d[s]))
    ensures KeysFolded(d) ==> KeysFolded(r.0)
  {
    var d1 := AddSection(d, section).0;
    var s := ToLower(section);
    var o := ToLower(option);
    (d1[s := d1[s][o := value]], o !in d1[s])
  }

  /** The section key a lookup uses: the empty name means the default section, then folded. */
  function SectionKey(section: string): (k: string)
    ensures IsLowerCase(k)
    ensures section == "" ==> k == DefaultSection
    ensures section != "" ==> k == ToLower(section)
  {
    ToLower(if section == "" then DefaultSection else section)
  }

  /** getRawString: the stored value, or which of the two names was missing. */
  function GetRawString(d: Data, section: string, option: string): (r: Result<string, GetError>)
    ensures var s := SectionKey(section); var o := ToLower(option);
            && (r.Ok? <==> s in d && o in d[s])
            && (r.Ok? ==> r.value == d[s][o])
            && (r.Err? ==> r.error == GetError(if s in d then OptionNotFound else SectionNotFound, "", "", s, o))
  {
    var s := SectionKey(section);
    var o := ToLower(option);
    if s in d then
      if o in d[s] then Ok(d[s][o]) else Err(GetError(OptionNotFound, "", "", s, o))
    else Err(GetError(SectionNotFound, "", "", s, o))
  }

  /** Lookups do not see case: names that fold alike find the same entry. */
  lemma GetRawStringCaseInsensitive(d: Data, s1: string, o1: string, s2: string, o2: string)
    requires SectionKey(s1) == SectionKey(s2) && ToLower(o1) == ToLower(o2)
    ensures GetRawString(d, s1, o1) == GetRawString(d, s2, o2)
  {
  }

  /** After addOption under a non-empty section name, the lookup by the same names finds the value. */
  lemma GetAfterAddOption(d: Data, section: string, option: string, value: string)
    requires section != ""
    ensures GetRawString(AddOption(d, section, option, value).0, section, option) == Ok(value)
  {
  }

  /** addOption of folded names in a present section updates that one entry. */
  lemma AddOptionPresent(d: Data, section: string, option: string, value: string)
    requires section in d && IsLowerCase(section) && IsLowerCase(option)
    ensures AddOption(d, section, option, value).0 == d[section := d[section][option := value]]
  {
    ToLowerFixedIff(section);
    ToLowerFixedIff(option);
  }

  /** A second addOption of the same names replaces the first. */
  lemma AddOptionTwice(d: Data, section: string, option: string, v1: string, v2: string)
    ensures AddOption(AddOption(d, section, option, v1).0, section, option, v2).0
            == AddOption(d, section, option, v2).0
  {
    var s := ToLower(section);
    var o := ToLower(option);
    var m := if s in d then d[s] else map[];
    assert m[o := v1][o := v2] == m[o := v2];
  }

  /** addOption changes no other entry that a lookup can reach. */
  lemma AddOptionLeavesOthers(d: Data, section: string, option: string, value: string, s: string, o: string)
    requires SectionKey(s) != ToLower(section) || ToLower(o) != ToLower(option)
    requires GetRawString(d, s, o).Ok?
    ensures GetRawString(AddOption(d, section, option, value).0, s, o) == GetRawString(d, s, o)
  {
  }

  /**
    addSection("") creates the section "" rather than the default section, so
    a value stored under the empty section name is not found by a lookup with
    the empty section name, which looks in the default section.
   */
  lemma EmptySectionNotNormalised()
    ensures AddSection(map[], "").0 == map["" := map[]]
    ensures GetRawString(AddOption(map[], "", "x", "v").0, "", "x")
            == Err(GetError(SectionNotFound, "", "", DefaultSection, "x"))
  {
    assert ToLower("") == "";
    assert ToLower("x") == "x";
    assert SectionKey("") == DefaultSection;
  }

  /** The strings GetBool accepts, as a table from folded text to value. */
  const BoolStrings: map<string, bool> := map[
    "t" := true, "true" := true, "y" := true, "yes" := true, "on" := true, "1" := true,
    "f" := false, "false" := false, "n" := false, "no" := false, "off" := false, "0" := false]

  const TrueStrings: set<string> := {"t", "true", "y", "yes", "on", "1"}
  const FalseStrings: set<string> := {"f", "false", "n", "no", "off", "0"}

  /** The table lookup of GetBool: the folded text must be one of the twelve entries. */
  function ParseBool(sv: string): (r: Option<bool>)
    ensures r == Some(true) <==> ToLower(sv) in TrueStrings
    ensures r == Some(false) <==> ToLower(sv) in FalseStrings
    ensures r == None <==> ToLower(sv) !in TrueStrings + FalseStrings
  {
    var k := ToLower(sv);
    if k in BoolStrings then Some(BoolStrings[k]) else None
  }

  /** GetBool on the store: the lookup error, a parse error naming the raw text, or the value. */
  function GetBoolAt(d: Data, section: string, option: string): (r: Result<bool, GetError>)
    ensures GetRawString(d, section, option).Err? ==> r == Err(GetRawString(d, section, option).error)
    ensures GetRawString(d, section, option).Ok? ==>
              var sv := GetRawString(d, section, option).value;
              && (r.Ok? <==> ToLower(sv) in TrueStrings + FalseStrings)
              && (r.Ok? ==> (r.value <==> ToLower(sv) in TrueStrings))
              && (r.Err? ==> r.error == GetError(CouldNotParse, "bool", sv, section, option))
  {
    match GetRawString(d, section, option)
    case Err(e) => Err(e)
    case Ok(sv) =>
      match ParseBool(sv)
      case Some(b) => Ok(b)
      case None => Err(GetError(CouldNotParse, "bool", sv, section, option))
  }

  lemma BoolExamples()
    ensures ParseBool("YES") == Some(true) && ParseBool("On") == Some(true) && ParseBool("1") == Some(true)
    ensures ParseBool("Off") == Some(false) && ParseBool("maybe") == None
  {
    assert ToLower("YES") == "yes";
    assert ToLower("On") == "on";
    assert ToLower("1") == "1";
    assert ToLower("Off") == "off";
    assert ToLower("maybe") == "maybe";
  }

  // ---------------------------------------------------------------------
  // strconv.Atoi, for the 64-bit int of the platforms the source targets.

  const IntMin: int := -0x8000_0000_0000_0000
  const IntMax: int := 0x7FFF_FFFF_FFFF_FFFF

  predicate IsDigit(c: char) {
    '0' <= c <= '9'
  }

  predicate AllDigits(s: string) {
    forall i :: 0 <= i < |s| ==> IsDigit(s[i])
  }

  /** The number a string of decimal digits denotes. */
  function DigitsValue(s: string): nat
    requires AllDigits(s)
  {
    if s == [] then 0 else DigitsValue(s[..|s| - 1]) * 10 + (s[|s| - 1] as int - '0' as int)
  }

  /** strconv.Atoi: an optional sign, at least one decimal digit, a value in range. */
  function ParseInt(s: string): (r: Option<int>)
    ensures r.Some? ==> IntMin <= r.value <= IntMax
    ensures r.Some? ==> |s| > 0 && (IsDigit(s[0]) || ((s[0] == '+' || s[0] == '-') && |s| > 1))
  {
    var signed := |s| > 0 && (s[0] == '+' || s[0] == '-');
    var body := if signed then s[1..] else s;
    if body == [] || !AllDigits(body) then None
    else
      var v: int := if |s| > 0 && s[0] == '-' then -(DigitsValue(body) as int) else DigitsValue(body);
      if IntMin <= v <= IntMax then Some(v) else None
  }

  /** The decimal digits of `n`, most significant first, as "%v" prints them. */
  function Digits(n: nat): (r: string)
    ensures |r| > 0 && AllDigits(r)
  {
    if n < 10 then [('0' as int + n) as char]
    else Digits(n / 10) + [('0' as int + n % 10) as char]
  }

  /** An int rendered with "%v". */
  function FormatInt(n: int): (r: string)
    ensures |r| > 0 && (r[0] == '-' <==> n < 0)
    ensures AllDigits(if n < 0 then r[1..] else r)
  {
    if n < 0 then "-" + Digits(-n) else Digits(n)
  }

  lemma {:induction false} DigitsValueOfDigits(n: nat)
    ensures DigitsValue(Digits(n)) == n
  {
    var d := Digits(n);
    if n >= 10 {
      DigitsValueOfDigits(n / 10);
      assert d[..|d| - 1] == Digits(n / 10);
    }
  }

  /** Reading back a rendered int gives the same int, for every int in range. */
  lemma FormatIntRoundTrip(n: int)
    requires IntMin <= n <= IntMax
    ensures ParseInt(FormatInt(n)) == Some(n)
  {
    var s := FormatInt(n);
    if n < 0 {
      DigitsValueOfDigits(-n);
      assert s[1..] == Digits(-n);
    } else {
      DigitsValueOfDigits(n);
    }
  }

  /** GetInt on the store: the lookup error, a parse error naming the raw text, or the value. */
  function GetIntAt(d: Data, section: string, option: string): (r: Result<int, GetError>)
    ensures GetRawString(d, section, option).Err? ==> r == Err(GetRawString(d, section, option).error)
    ensures GetRawString(d, section, option).Ok? ==>
              var sv := GetRawString(d, section, option).value;
              && (r.Ok? <==> ParseInt(sv).Some?)
              && (r.Ok? ==> r.value == ParseInt(sv).value)
              && (r.Err? ==> r.error == GetError(CouldNotParse, "int", sv, section, option))
  {
    match GetRawString(d, section, option)
    case Err(e) => Err(e)
    case Ok(sv) =>
      match ParseInt(sv)
      case Some(v) => Ok(v)
      case None => Err(GetError(CouldNotParse, "int", sv, section, option))
  }
}
