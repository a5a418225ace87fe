# go-nonamelib configuration: a Dafny model

This project models the configuration package of go-nonamelib and proves properties of the model. The package has three parts:

- **The configuration item** (`ConfigurationItem`). A record with four fields: section, name, friendly name and default value. It has getters, which are plain field reads, and setters.
- **The registry** (`configuration.go`). It holds every registered item twice:
  - by registration key (`configItems`);
  - by section and name (`configItemCollection`).

  It has one configuration provider, which can be set only once. Every lookup by key is handed to that provider.
- **The INI provider** (`IniConfigProvider`). It keeps a store of section → option → raw string. It reads the store from INI text and writes it back as INI text. It answers typed lookups for an item. On `Initialize` it seeds the store with the defaults of every registered item.

The Dafny modules follow that structure:

| module | file | contents |
|---|---|---|
| `Text` | text.dfy | `strings.TrimSpace` and (ASCII) `strings.ToLower`; `Index` and `IndexAny`; splitting text into lines and joining lines back |
| `ConfigItem` | item.dfy | the item as a class with four mutable fields |
| `IniData` | ini_data.dfy | the store as a value; `addSection`, `addOption` and `getRawString` as functions; the `GetBool` table and an `strconv.Atoi` model |
| `IniRead` | ini_read.dfy | `stripComments` (a method proved equal to a cut at the leftmost marker); the parser's loop as a function (`ReadLines`) with one lemma per branch of its switch |
| `IniWrite` | ini_write.dfy | what `write` emits, for any order of Go's map walk (a ghost `Layout`); the round-trip lemmas |
| `IniSeed` | ini_seed.dfy | the seeding loop of `Initialize` as a fold over steps, and what it does to the store |
| `IniProvider` | ini_provider.dfy | the provider class. Its methods mutate `data` and the file text, and are proved to agree with the functions above |
| `Registry` | registry.dfy | the registry class, the pure model of one registration and of a batch, and the delegation by key |

Go's map iteration order is unspecified. Each method that walks a map (`write`, the seeding loop, `AddConfigurationItems`) therefore picks its next key arbitrarily and returns the order it took as a ghost value. Its contract holds for any such order.

The file is a string. `Read` takes the file's text, and `Write` replaces it. The text is split into lines at `'\n'`; each line is trimmed and classified exactly as the switch in `read` does.

Behaviours of the code that the model keeps, and proves:

- `read` starts in section `"default"`. An option line before any header therefore lands there (`IniRead.OptionBeforeHeader`). The `BlankSection` error only arises after an explicit `[]` header (`IniRead.BlankSectionLine`).
- Any line that starts with `rem` in any case is a comment. That includes `remote=1` (`IniRead.RemPrefixIsComment`).
- Blank and comment lines keep the current option (`IniRead.SkippedLine`). A later line without a separator still continues that option's value (`IniRead.ContinuationLine`).
- `addSection("")` creates a section named `""`, not `default`. A lookup with the empty section name looks in `default`. So a value stored under `""` is not found (`IniData.EmptySectionNotNormalised`).
- An item registered with the empty section is seeded into section `""`. `write` renders that section as the header `[]`, and the next `read` of the file stops at its first option line with `BlankSection` (`IniWrite.EmptySectionNotReadBack`). The round-trip lemmas exclude such stores.
- The seeding test looks the section and the name up exactly as the registry spells them, while the store folds both to lower case. An item whose registered section is not in lower case is therefore always "missing": its default overwrites the value the file held, and the file is written again (`IniSeed.MixedCaseSectionClobbers`).
- The registry's section check looks up the registration KEY among the section's item names, but it stores the item under its NAME (configuration.go:136 against 140). So:
  - a new item whose name is taken in its section is accepted, and replaces the old item there (`Registry.SameNameReplaces`);
  - a new key that equals another item's name in that section is refused;
  - a refused item stays registered under its key (`Registry.KeyTakenAsNameFails`).

## Model

| member | source | states |
|---|---|---|
| ConfigItem.ConfigurationItem.constructor | configuration/configurationitem.go:12-17 | each of the four getters returns the argument given for it |
| ConfigItem.ConfigurationItem.GetSection | configuration/configurationitem.go:19-21 | a field read: it reads only this item and changes nothing; the constructor and SetSection state what it returns |
| ConfigItem.ConfigurationItem.GetName | configuration/configurationitem.go:27-29 | a field read: it reads only this item and changes nothing; the constructor and SetName state what it returns |
| ConfigItem.ConfigurationItem.GetFriendlyName | configuration/configurationitem.go:35-37 | a field read: it reads only this item and changes nothing; the constructor and SetFriendlyName state what it returns |
| ConfigItem.ConfigurationItem.GetDefaultValue | configuration/configurationitem.go:43-45 | a field read: it reads only this item and changes nothing; the constructor and SetDefaultValue state what it returns |
| ConfigItem.ConfigurationItem.SetSection | configuration/configurationitem.go:23-25 | afterwards GetSection returns the new value; name, friendly name and default are unchanged |
| ConfigItem.ConfigurationItem.SetName | configuration/configurationitem.go:31-33 | afterwards GetName returns the new value; the other three fields are unchanged |
| ConfigItem.ConfigurationItem.SetFriendlyName | configuration/configurationitem.go:39-41 | afterwards GetFriendlyName returns the new value; the other three fields are unchanged |
| ConfigItem.ConfigurationItem.SetDefaultValue | configuration/configurationitem.go:47-49 | afterwards GetDefaultValue returns the new value; the other three fields are unchanged |
| IniData.ReasonCode | configuration/providers/iniconfigprovider.go:16-27 | every reason code lies between 0 and 4 |
| IniData.ReasonCodesAreIota | configuration/providers/iniconfigprovider.go:16-27 | the five reasons take the iota values 0, 1, 2, 3 and 4 in declaration order, so no two reasons share a code |
| IniData.AddSection | configuration/providers/iniconfigprovider.go:159-168 | reports true iff the folded section was absent; adds exactly that section, empty; keeps every other section; keeps keys folded |
| IniData.AddSectionTwice | configuration/providers/iniconfigprovider.go:159-168 | a repeated addSection changes nothing and reports false |
| IniData.AddOption | configuration/providers/iniconfigprovider.go:173-183 | creates the folded section if needed; sets only the folded option to the value; every other section is unchanged; reports true iff the option was absent |
| IniData.AddOptionTwice | configuration/providers/iniconfigprovider.go:173-183 | a second addOption of the same names leaves the store as if only the second had happened |
| IniData.AddOptionLeavesOthers | configuration/providers/iniconfigprovider.go:173-183 | every lookup of other folded names that succeeded before still succeeds with the same value; a lookup that failed may fail differently afterwards (SectionNotFound can become OptionNotFound) |
| IniData.SectionKey | configuration/providers/iniconfigprovider.go:189-193 | the empty section means `default`; every other name is folded to lower case |
| IniData.GetRawString | configuration/providers/iniconfigprovider.go:188-203 | succeeds iff the folded section holds the folded option, and then returns the stored value; otherwise OptionNotFound when the section exists and SectionNotFound when not, with the folded names |
| IniData.GetRawStringCaseInsensitive | configuration/providers/iniconfigprovider.go:188-203 | two lookups whose names fold alike give the same answer |
| IniData.GetAfterAddOption | configuration/providers/iniconfigprovider.go:173-203 | after addOption under a non-empty section, the lookup by the same names returns the value |
| IniData.EmptySectionNotNormalised | configuration/providers/iniconfigprovider.go:159-203 | addSection("") creates section "", and a value added under "" is not found by a lookup with section "" |
| IniData.ParseBool | configuration/providers/iniconfigprovider.go:34-47 | true exactly for the six true strings, false exactly for the six false strings, after folding; nothing for anything else |
| IniData.GetBoolAt | configuration/providers/iniconfigprovider.go:143-155 | a lookup error is passed on; otherwise it succeeds iff the folded text is one of the twelve strings, with the table's value; otherwise CouldNotParse naming "bool", the raw text and the item's names |
| IniData.BoolExamples | configuration/providers/iniconfigprovider.go:34-47 | "YES", "On" and "1" are true; "Off" is false; "maybe" is rejected |
| IniData.ParseInt | configuration/providers/iniconfigprovider.go:120 | a result is within the 64-bit int range and comes from a string of an optional sign and at least one digit |
| IniData.FormatInt | configuration/providers/iniconfigprovider.go:80 | `%v` of an int: a non-empty text that starts with `-` exactly for a negative number, followed only by decimal digits |
| IniData.FormatIntRoundTrip | configuration/providers/iniconfigprovider.go:80 | every 64-bit int rendered with %v parses back to itself |
| IniData.GetIntAt | configuration/providers/iniconfigprovider.go:115-127 | a lookup error is passed on; otherwise it succeeds iff the text parses, with that value; otherwise CouldNotParse naming "int", the raw text and the item's names |
| IniRead.CommentFree | configuration/providers/iniconfigprovider.go:345-353 | the result is a prefix of the line and holds no inline comment marker; a line without markers is returned whole; a shorter result ends exactly where a marker starts in the line |
| IniRead.StripComments | configuration/providers/iniconfigprovider.go:345-353 | the four successive cuts give the line cut at its leftmost marker (CommentFree) |
| IniRead.CommentFreeExamples | configuration/providers/iniconfigprovider.go:345-353 | `#` and `;` not preceded by a space or TAB survive; a marker cuts the line before the space |
| IniRead.MarkerAtIff | configuration/providers/iniconfigprovider.go:347 | a marker starts at k iff one of the four marker strings occurs there |
| IniRead.StartsWithRemIff | configuration/providers/iniconfigprovider.go:235 | the rem test is a case-insensitive match of the first three characters |
| IniRead.ReadLinesAppend | configuration/providers/iniconfigprovider.go:205-271 | reading a + b is reading a, then, unless a failed, reading b from the state a left |
| IniRead.ReadLine | configuration/providers/iniconfigprovider.go:213-263 | one pass of the loop on a raw line: it trims the line and classifies it; when it continues, the store's keys stay folded |
| IniRead.ReadTrimmed | configuration/providers/iniconfigprovider.go:225-263 | the switch on a trimmed line, in the source's order; when it continues, the store's keys stay folded (what each branch does is stated by the per-line lemmas below) |
| IniRead.Assignment | configuration/providers/iniconfigprovider.go:247-253 | the `name=value` branch; the store's keys stay folded (its effect is stated by IniRead.OptionLine) |
| IniRead.Continuation | configuration/providers/iniconfigprovider.go:255-258 | the continuation branch; the store's keys stay folded (its effect is stated by IniRead.ContinuationLine) |
| IniRead.ReadLines | configuration/providers/iniconfigprovider.go:205-271 | the loop of `read` over the lines until the first error; the store's keys stay folded (its behaviour is stated by the per-line lemmas, IniRead.ReadLinesAppend and the round-trip lemmas) |
| IniRead.ReadText | configuration/providers/iniconfigprovider.go:205-271 | `read` on a file's text, from section default; the store's keys stay folded |
| IniRead.SkippedLine | configuration/providers/iniconfigprovider.go:226-236 | blank lines and lines starting with `#`, `;` or `rem` change neither the store nor the current section and option |
| IniRead.RemPrefixIsComment | configuration/providers/iniconfigprovider.go:235-236 | every trimmed line whose first three characters fold to `rem` is skipped, whatever follows |
| IniRead.HeaderLine | configuration/providers/iniconfigprovider.go:238-241 | a `[x]` line adds section trim(x), makes it current and clears the current option |
| IniRead.BlankSectionLine | configuration/providers/iniconfigprovider.go:243-244 | with the empty section current, any other line stops the read with BlankSection and the trimmed line |
| IniRead.OptionLine | configuration/providers/iniconfigprovider.go:247-253 | a line whose first `=` or `:` is past its start adds the trimmed name with the trimmed, comment-free rest, in the current section, and makes the name current |
| IniRead.ContinuationLine | configuration/providers/iniconfigprovider.go:255-258 | a line without such a separator sets the current option to its previous value, a newline, and the trimmed comment-free line |
| IniRead.UnparsableLine | configuration/providers/iniconfigprovider.go:260-261 | the same line with no current option stops the read with CouldNotParse |
| IniRead.OptionBeforeHeader | configuration/providers/iniconfigprovider.go:208-209 | any option line read first, whatever its case, spacing or inline comment, adds through addOption its trimmed name and its trimmed, comment-free value in the default section and makes that option current |
| IniRead.PlainOptionBeforeHeader | configuration/providers/iniconfigprovider.go:208-209 | in particular `o=v` with a plain name and value stores exactly `v` under `o` in the default section |
| IniRead.ReadLinesStop | configuration/providers/iniconfigprovider.go:243-261 | an error ends the read at once, keeping the store as it was before the failing line |
| IniRead.MultiLineValue | configuration/providers/iniconfigprovider.go:249-258 | the lines `o=a` then `b` leave option o holding "a\nb" |
| IniWrite.OptionLines | configuration/providers/iniconfigprovider.go:291-295 | one `option=value` line per option, in the order walked |
| IniWrite.SectionLines | configuration/providers/iniconfigprovider.go:284-298 | a section's lines are its `[name]` header, then each option's `option=value` line in order, then one empty line, and nothing else |
| IniWrite.RenderLines | configuration/providers/iniconfigprovider.go:284-299 | the file's lines: empty exactly for an empty walk, and every walked section's `[name]` header is among them |
| IniWrite.Render | configuration/providers/iniconfigprovider.go:284-299 | the file's text: empty exactly for an empty walk; otherwise it starts with the first section's header line and ends with a newline |
| IniWrite.WriteOptions | configuration/providers/iniconfigprovider.go:291-295 | the inner loop emits every option of the section exactly once, as its `option=value` line, in the order returned |
| IniWrite.WriteSection | configuration/providers/iniconfigprovider.go:288-298 | a section's text is its `[name]` header, its options' lines and one empty line |
| IniWrite.WriteStore | configuration/providers/iniconfigprovider.go:284-299 | the outer loop of write: the text is the rendering of a walk that lists each section except an empty default once, each with all of its options; for a store whose names and values the line syntax can carry (see IniWrite.ReadBackWritten under Left out), reading the text back into an empty store succeeds and gives the store less an empty default section, and reading it back into the same store leaves that store unchanged |
| IniWrite.RenderSnoc | configuration/providers/iniconfigprovider.go:284-299 | writing one more section appends exactly that section's text |
| IniWrite.ReadRender | configuration/providers/iniconfigprovider.go:205-299 | reading the text of a layout of plain names and values succeeds and merges every written option into the store |
| IniWrite.LayoutNames | configuration/providers/iniconfigprovider.go:284-287 | the sections written are those of the store except an empty default section |
| IniWrite.ReadBackWritten | configuration/providers/iniconfigprovider.go:205-299 | for a store of writable names and values, reading what write produced, in any walk order, into an empty store gives the store back, less an empty default section |
| IniWrite.ReadBackIntoSame | configuration/providers/iniconfigprovider.go:205-299 | for a writable store (see IniWrite.ReadBackWritten under Left out), reading what write produced into the same store succeeds and leaves it unchanged |
| IniWrite.EmptySectionNotReadBack | configuration/providers/iniconfigprovider.go:238-244 | a section named "" is written as `[]`, and the option line after it stops the next read with BlankSection |
| IniSeed.Seed | configuration/providers/iniconfigprovider.go:74-88 | seeding keeps the store's keys folded |
| IniSeed.SeedOne | configuration/providers/iniconfigprovider.go:76-82 | one section step is addSection of the name as registered; one item step adds the default iff the exact spelling is missing, and then reports an addition |
| IniSeed.SeedStepsOf | configuration/providers/iniconfigprovider.go:75-83 | every step of a walk names a registered section, and every section of the walk and every item of it has its step |
| IniSeed.DeclaredSeeded | configuration/providers/iniconfigprovider.go:74-84 | afterwards every registered section and every registered item's current name has an entry under the folded names |
| IniSeed.SeedKeepsExact | configuration/providers/iniconfigprovider.go:78-82 | an entry present under the exact spelling the registry uses keeps its value, unless a differently spelled item folds onto it |
| IniSeed.SeedKeepsFileValues | configuration/providers/iniconfigprovider.go:78-82 | when registered names are lower case, every value the file held survives seeding |
| IniSeed.MixedCaseSectionClobbers | configuration/providers/iniconfigprovider.go:79-80 | a registered section not in lower case overwrites the file's value with the default and reports an addition |
| IniSeed.SeedAddedIff | configuration/providers/iniconfigprovider.go:74-88 | an addition is reported iff some item's exact spelling was missing; without one the store gains at most empty sections |
| IniSeed.SeedKeys | configuration/providers/iniconfigprovider.go:74-84 | the store's sections afterwards are the old ones plus the folded registered sections |
| IniSeed.SeedTwice | configuration/providers/iniconfigprovider.go:74-88 | with lower-case registered names, seeding the seeded store again changes nothing and reports nothing, so no second write happens |
| IniProvider.IniConfigProvider.constructor | configuration/providers/iniconfigprovider.go:58-61 | the provider starts with its path, an empty store and the given file text |
| IniProvider.IniConfigProvider.AddSection | configuration/providers/iniconfigprovider.go:159-168 | the store and result are those of IniData.AddSection on the old store; the file is untouched |
| IniProvider.IniConfigProvider.AddOption | configuration/providers/iniconfigprovider.go:173-183 | the store and result are those of IniData.AddOption on the old store; the file is untouched |
| IniProvider.IniConfigProvider.GetString | configuration/providers/iniconfigprovider.go:111-113 | the item's value under its folded section (empty meaning default) and name, or which of them is missing |
| IniProvider.IniConfigProvider.GetInt | configuration/providers/iniconfigprovider.go:115-127 | the lookup error, or the parsed int, or CouldNotParse with the raw text and the item's own names |
| IniProvider.IniConfigProvider.GetBool | configuration/providers/iniconfigprovider.go:143-155 | the lookup error, or the table value of the folded text, or CouldNotParse with the raw text and the item's own names |
| IniProvider.IniConfigProvider.Write | configuration/providers/iniconfigprovider.go:274-304 | the file's new text is the rendering of a walk over the store: each section except an empty default once, with each of its options once; the store is unchanged |
| IniProvider.IniConfigProvider.SetValue | configuration/providers/iniconfigprovider.go:91-109 | if the item's folded section exists, only its folded option is set, a lookup for the item returns the value, and the file is rewritten from the new store; otherwise nothing changes |
| IniProvider.IniConfigProvider.Read | configuration/providers/iniconfigprovider.go:205-271 | the store and the error are those of ReadText from section default on the given text; the file text is untouched |
| IniProvider.IniConfigProvider.ReadLinesLoop | configuration/providers/iniconfigprovider.go:208-270 | the loop from section default and no option leaves the store and the error of ReadLines over the lines |
| IniProvider.IniConfigProvider.ReadOneLine | configuration/providers/iniconfigprovider.go:211-263 | one pass of the loop, on the trimmed line: when reading from this line on comes to a given outcome, either the pass stops with that outcome's store and error, or reading the following lines from the state it leaves comes to the same outcome |
| IniProvider.IniConfigProvider.ReadTrimmedLine | configuration/providers/iniconfigprovider.go:225-263 | the outer switch: skipped lines change nothing; a header adds its trimmed section, makes it current and clears the option; with no section current any other line stops with BlankSection; otherwise the inner switch decides |
| IniProvider.IniConfigProvider.ReadContentLine | configuration/providers/iniconfigprovider.go:246-262 | a separator past the start adds the option; otherwise, with an option current, the line continues its value; otherwise the read stops with CouldNotParse and the store is unchanged |
| IniProvider.IniConfigProvider.SeedSection | configuration/providers/iniconfigprovider.go:78-83 | the inner loop visits every item of the section once and acts as the fold of its item steps |
| IniProvider.IniConfigProvider.SeedItems | configuration/providers/iniconfigprovider.go:75-84 | the outer loop visits every registered section once and acts as Seed over those steps |
| IniProvider.IniConfigProvider.Initialize | configuration/providers/iniconfigprovider.go:63-89 | reads the file; on an error, the store is what was read and the file is untouched; otherwise it seeds, and rewrites the file iff seeding added an option; afterwards every registered section and item has an entry under its folded names (this uses the store's invariant that its names are already folded) |
| Registry.Register | configuration/configuration.go:120-144 | a known key fails with the "already been added" message and changes nothing; otherwise the item is stored by key, its section map is created if missing, and it succeeds iff the key is not a name in that map, storing the item under its name; otherwise it fails with the "already exists" message |
| Registry.RegisterKeepsValid | configuration/configuration.go:120-144 | every item grouped by section stays registered by some key, whether the call succeeds or fails |
| Registry.RegisterMessage | configuration/configuration.go:120-144 | a registration succeeds iff its message is empty |
| Registry.SameNameReplaces | configuration/configuration.go:136-140 | a new item whose name is taken in its section is accepted and replaces the old one there |
| Registry.KeyTakenAsNameFails | configuration/configuration.go:125-138 | a new key that is an item's name in that section is refused, but the item stays registered by key and the grouping is unchanged |
| Registry.RegisterAllErrorIff | configuration/configuration.go:37-51 | the batch's error text is empty iff every registration in it succeeded |
| Registry.RegisterAllItems | configuration/configuration.go:37-51 | after a batch, the items known by key are the old ones plus every batch item whose key was new |
| Registry.RegisterAll | configuration/configuration.go:37-51 | the batch on values, in a given order: every item registered before keeps its key and item, and every key of the batch is registered afterwards |
| Registry.RegisterAllSnoc | configuration/configuration.go:40-44 | one more item appends its failure message, if any, to the error text of the batch so far |
| Registry.EntriesOf | configuration/configuration.go:40-41 | each entry of the container is paired with the section and name the registration reads |
| Registry.Registry.constructor | configuration/configuration.go:14-17 | both tables start empty and no provider is set |
| Registry.Registry.SetConfigurationProvider | configuration/configuration.go:25-31 | only when no provider is set; installs it and leaves the tables alone |
| Registry.Registry.AddConfigurationItem | configuration/configuration.go:120-144 | the two tables, the result and the message are those of Register with the item's current section and name |
| Registry.Registry.AddConfigurationItems | configuration/configuration.go:37-51 | every entry of the container is registered once, in the returned order; the tables are those of RegisterAll; the error is absent iff the joined messages are empty, and otherwise is exactly that text |
| Registry.Registry.GetConfigurationItemByKey | configuration/configuration.go:146-153 | succeeds iff the key is registered, with its item; otherwise the "Unable to find" message for the key |
| Registry.Registry.Declared | configuration/configuration.go:33-35 | the collection as seeding sees it: every registered section and name, with the item's current name and default; under the registry's invariant it reads only items that are also registered by key |
| Registry.Registry.Initialize | configuration/configuration.go:53-57 | the provider's Initialize over the registry's collection; on success every registered section and every registered item's current name has an entry, folded, in the provider's store |
| Registry.Registry.SetValue | configuration/configuration.go:59-70 | an unknown key is the lookup error and the provider is untouched; a known key returns no error, and the provider sets the value for the registered item |
| Registry.Registry.GetString | configuration/configuration.go:72-82 | an unknown key is the lookup error; otherwise the provider's answer for the registered item |
| Registry.Registry.GetInt | configuration/configuration.go:84-94 | an unknown key is the lookup error; otherwise the provider's answer for the registered item |
| Registry.Registry.GetBool | configuration/configuration.go:108-118 | an unknown key is the lookup error; otherwise the provider's answer for the registered item |

## Left out

- File I/O. Opening, creating, truncating and closing the INI file, and the panics when that fails (iniconfigprovider.go:64-72, 275-280, 301), are not modelled. The provider holds the file's text as a string: `Read` takes the text, and `Write` replaces it.
- Buffered reading. `bufio` and its end-of-file handling are replaced by splitting the text at `'\n'`. Line 216 returns a nil error on a read failure other than end of file; the model has no such failures.
- IniProvider.IniConfigProvider.Initialize: Go panics when the read fails. The model returns the read error instead and leaves the file untouched.
- `GetFloat64`, in both the provider and the registry, is not modelled. It needs `strconv.ParseFloat`, which is floating point.
- IniData.ParseInt: this is `strconv.Atoi` for a 64-bit `int`. It accepts an optional sign and decimal digits within range. Go's underscore and base-prefix rules do not apply to Atoi.
- Values and defaults are `interface{}` in Go and are rendered with `fmt.Sprintf("%v", …)`. The model takes them as already-rendered strings; `FormatInt` shows the rendering for ints.
- Variable substitution is not modelled. `varRegExp` is never used, and `DepthValues` appears only in the message text of `MaxDepthReached`, which is kept only as a reason code.
- Error messages. The `Error()` methods' text and the `println("Section not found")` diagnostic are not modelled. Errors are kept as their reason codes and fields.
- Case folding is ASCII only: `ToLower` folds `A`–`Z`, and Go's Unicode case tables are not modelled. `TrimSpace` removes the characters Go's `unicode.IsSpace` accepts.
- Registry.Registry.AddConfigurationItems: Go passes the joined messages to `fmt.Errorf` as its format string. A `%` in a key, name or section is therefore rewritten by Go's formatting. The model returns the joined text as it is, so it matches Go only when the messages hold no `%`.
- Go's map iteration order is an arbitrary order returned as a ghost value. The contracts hold for every order, but the model does not say which order Go takes.
- Package-level variables become the fields of one `Registry` object. The two panics (no provider, provider set twice) become preconditions. Concurrency is not modelled.
- `configuration/interfaces.go` is not part of this model: it declares interfaces only. The registry talks to the INI provider class directly, and items are the `ConfigurationItem` class.
- IniWrite.ReadBackWritten: the round trip is proved only for stores whose names and values the line syntax can carry (the predicate `Writable`):
  - sections are non-empty, lower case, free of surrounding space and free of newlines;
  - options are non-empty, lower case, free of surrounding space and free of newlines;
  - options hold no `=` or `:`;
  - options do not start with `#`, `;` or `[`, and do not start with `rem`;
  - values hold no newline, surrounding space or inline comment marker.

  Stores outside these conditions need not come back. For example, an option `[a` holding `]` is written as the line `[a=]`, which the next read takes for the header of a section `a=`. Likewise, a section ` x` is written as `[ x]` and read back as `x`.

  Multi-line values are proved separately, by IniRead.MultiLineValue.
