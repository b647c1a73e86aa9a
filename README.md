# ArgumentParser, modelled in Dafny

A model of the non-throwing command-line parser of `ArgumentParser.cs`.
Callers register options against their own mutable cells: a `BoolRef` for a
flag, a `StringBuilder` for a value. They may hand over a list for positional
arguments. `Parse` first expands grouped short options (`-xyz` becomes `-x -y
-z`). It then walks the tokens, writes through the registered references and
appends every problem to the `Errors` list. Nothing is thrown, and nothing is
returned.

The model has two layers.

- **Reference semantics** (modules `ShortGroups`, `TokenWalk`). Expansion and
  the token walk are pure functions over a `Store`. A `Store` is the value of
  everything a parse can change: the contents of the registered flags and
  buffers, the sink (`None` when no argument list was given) and the error
  log. `Scan` is the registry loop. It tries every entry, with no early
  break. Each entry is compared against the token at the current index, and
  that index moves when a value option consumes its value. `Walk` is the
  outer loop, with the `parse` flag that `--` switches off for good.
- **Imperative model** (module `Parser`, class `ArgumentParser`). The class
  keeps the source's fields: the error log, the registry and the nullable
  argument list. Its methods write through the same references the source
  writes through. `Snapshot()` reads the heap into a `Store`, and `Parse` is
  proved to leave `Snapshot() == ParseSpec(options, args, old(Snapshot()))`.
  The body of `Parse` is split into methods that follow its own blocks:
  `ParseToken` (one iteration of the outer loop), `ParseOption` (the registry
  scan plus the unknown-token check), `ScanOptions` (the inner loop) and
  `FireFlag`/`FireValue` (the body of a match). The statements and their order
  are those of the source.

Error texts are modelled exactly. A null `char?` or a null `string` renders as
the empty string, as C# concatenation and `Nullable<char>.ToString()` do. So an
option with no short name spells its short form `-`, and one with no long
name spells its long form `--`. The on-option's null-target message differs
from the other two: it says "boolref" and ends with a period.

Three consequences of the order in which `Parse` works are kept:

- After a value option consumes its value (line 179), the remaining registry
  entries are compared against that value (line 166), not against the option
  token. `Scenarios.ValueRescanned` shows a consumed value `-d` also
  switching on a later `-d` flag.
- `-` and `--` are handled before the registry is consulted (lines 148-156),
  so an option with a null name is never selected through that name by the
  token under scan. A consumed value `--`, however, equals the `"--" + null`
  spelling of every later option without a long name, and fires it
  (`Scenarios.NullLongNameMatchesConsumedTerminator`).
- Short groups are expanded over the whole raw vector (line 143) before the
  walk looks at `--` (line 148) or at which token is a value (line 179). A
  group after `--` therefore reaches the argument list split:
  `-- -rf` sends `-r` and `-f` (`Scenarios.GroupAfterTerminator`). A value
  shaped like a group is split too: `-c -10` gives `c` the value `-1` and logs
  `-0` as unknown (`Scenarios.GroupedValue`). The lemmas about the walk
  (`Terminator`, `ValueOption` and the like) speak of the expanded vector.

The registry loop (lines 164-184) has no early break: every entry that
matches the token fires, in registry order, so on a cell that several
matching flag options share, the last one wins (`TokenWalk.FlagsOnly`,
`TokenWalk.FlagWritesLastWins`, `Scenarios.SharedCellLastWins`;
`Scenarios.SameNameFlags` shows two same-named flags on different cells both
written).

## Model

| member | source | states |
|---|---|---|
| Cells.BoolRef.constructor | ArgumentParser.cs:31-33 | a new cell holds the given boolean |
| Cells.StringBuilder.constructor | CommandArgumentParser/Program.cs:16 | a new buffer is empty |
| Cells.StringBuilder.Clear | ArgumentParser.cs:176 | the buffer becomes empty |
| Cells.StringBuilder.Append | ArgumentParser.cs:181 | the buffer's content is extended by exactly the appended string |
| Cells.StringList.constructor | CommandArgumentParser/Program.cs:18 | a new argument list is empty |
| Cells.StringList.Add | ArgumentParser.cs:121 | the list gains exactly the given string at its end |
| Registry.Binding | ArgumentParser.cs:11-13 | defines what a registered option writes: a fixed boolean into a flag cell (`Flag` and `Set`, lines 73 and 87-88) or the next token into a string buffer (`Value`, line 104) |
| Registry.Opt | ArgumentParser.cs:8-22 | defines a registered option: a nullable short name, a nullable long name and its binding |
| Registry.ShortText | ArgumentParser.cs:166 | defines how a nullable short name is written out: the character, or nothing when it is null (also in the messages of lines 68, 82 and 99) |
| Registry.LongText | ArgumentParser.cs:166 | defines how a nullable long name is written out: the string, or nothing when it is null (also in the messages of lines 68, 82 and 99) |
| Registry.ShortForm | ArgumentParser.cs:166 | defines the short spelling of an option: `-` followed by its short name, or `-` alone for a null one |
| Registry.LongForm | ArgumentParser.cs:166 | defines the long spelling of an option: `--` followed by its long name, or `--` alone for a null one |
| Registry.Matches | ArgumentParser.cs:166 | defines when a token selects an option: it equals either spelling |
| Registry.NullOnTargetError | ArgumentParser.cs:68 | defines the on-option's null-target message, with "boolref" and a final period |
| Registry.NullTargetError | ArgumentParser.cs:82 | defines the off- and value-option's null-target message (also line 99) |
| Registry.NoListError | ArgumentParser.cs:118 | defines the message for a positional argument with no list to go to |
| Registry.MissingValueError | ArgumentParser.cs:175 | defines the message for a value option on the last token |
| Registry.UnknownError | ArgumentParser.cs:186 | defines the message for an option-shaped token nothing matched |
| Registry.NullNamesMatchOnlyDashes | ArgumentParser.cs:166 | an option with both names null is selected by exactly the tokens `-` and `--` |
| ShortGroups.IsGroup | ArgumentParser.cs:128 | defines a short group: longer than two characters, a leading dash, and a second character that is not a dash |
| ShortGroups.ExpandToken | ArgumentParser.cs:128-134 | defines the expansion of one token: `-c` for each character after the dash of a group, else the token itself |
| ShortGroups.Expand | ArgumentParser.cs:125-137 | defines the expansion of a vector: the token expansions concatenated in order |
| ShortGroups.ExpandTokenSpec | ArgumentParser.cs:128-134 | a group `-xyz` (length > 2, leading dash, second char not a dash) becomes `-x`, `-y`, `-z` in order; any other token passes through alone |
| ShortGroups.ExpandAppend | ArgumentParser.cs:127-135 | expansion works token by token, preserving relative order: it distributes over concatenation |
| ShortGroups.ExpandShape | ArgumentParser.cs:128-134 | every emitted token is an input token that failed the group test or a two-character `-c`; no emitted token is a group |
| ShortGroups.ExpandNoGroups | ArgumentParser.cs:134 | a vector without groups is left unchanged |
| ShortGroups.ExpandIdempotent | ArgumentParser.cs:125-137 | expanding twice is the same as expanding once |
| ShortGroups.GroupEquivalence | ArgumentParser.cs:125-137 | a vector with `-xyz` expands to the same as the vector with `-x -y -z` in its place |
| TokenWalk.StartsWithDash | ArgumentParser.cs:158 | defines `StartsWith("-")`: a non-empty token whose first character is a dash |
| TokenWalk.OptionShaped | ArgumentParser.cs:148-163 | defines the tokens that reach the registry scan while parsing is enabled: dash-prefixed, and neither `-` nor `--` |
| TokenWalk.AddArgument | ArgumentParser.cs:116-122 | defines one token bound for the sink: appended to it, or one "Adding argument" error when there is none |
| TokenWalk.Walk | ArgumentParser.cs:145-192 | defines the outer loop from a given index and `parse` flag: `--`, `-`, non-dash tokens, the registry scan with the unknown-token error, and the stop on a missing value |
| TokenWalk.ParseSpec | ArgumentParser.cs:142-193 | defines a whole parse: the walk from the first token, with parsing enabled, over the expanded vector |
| TokenWalk.AddAllSpec | ArgumentParser.cs:116-122 | sending tokens to the sink appends exactly them in order; with no sink, each logs one "Adding argument" error and the sink stays absent |
| TokenWalk.Fire | ArgumentParser.cs:169-182 | a matched option gives up the parse exactly when it is a value option on the last token; otherwise the scan goes on, recognized, at the same index after a flag and at the next index after a value option |
| TokenWalk.Scan | ArgumentParser.cs:164-184 | a full registry scan stays within the vector, only advances the index, and never leaves an advanced index unrecognized |
| TokenWalk.DisabledWalk | ArgumentParser.cs:189-191 | once parsing is disabled every remaining token goes to the sink verbatim and in order |
| TokenWalk.Terminator | ArgumentParser.cs:148-151 | in the expanded vector, `--` is not emitted; every later token of the expanded vector, including `--`, `-` and option-shaped ones, reaches the sink in order, or logs one error each when there is no sink |
| TokenWalk.PositionalsOnly | ArgumentParser.cs:153-160 | while parsing is enabled, `-` and tokens not starting with a dash go to the sink in order |
| TokenWalk.PositionalParse | ArgumentParser.cs:153-160 | parsing a vector with no dash-prefixed token appends all of it to the sink in order, or, with no sink, logs one error per token and nothing else |
| TokenWalk.ParseGroup | ArgumentParser.cs:143 | parsing a vector with `-xyz` is the same as parsing it with `-x -y -z` |
| TokenWalk.ParseExpanded | ArgumentParser.cs:143 | parsing an already expanded vector is the same as parsing the original |
| TokenWalk.ScanSkip | ArgumentParser.cs:164-166 | registry entries that do not match the current token have no effect |
| TokenWalk.FlagWrites | ArgumentParser.cs:164-171 | defines the flags after every matching flag entry from a given one on has written its fixed value, in registry order |
| TokenWalk.AnyMatch | ArgumentParser.cs:166-167 | defines whether some entry from a given one on matches the token, which sets `recognized` |
| TokenWalk.FlagsScan | ArgumentParser.cs:164-184 | when every entry matching the token is a flag, the scan stays on the token, writes every matching entry's flag in registry order, and recognizes the token exactly when something matched |
| TokenWalk.FlagsOnly | ArgumentParser.cs:163-187 | a token that only flag options match, however many, has all their writes applied in registry order and the walk goes on with the next token; with no match it is one unknown-argument error |
| TokenWalk.FlagWritesUntouched | ArgumentParser.cs:164-171 | when no entry matches, no flag changes |
| TokenWalk.FlagWritesLastWins | ArgumentParser.cs:164-171 | on a cell shared by several matching flag entries, the last one in registry order decides the value |
| TokenWalk.FlagWritesKeep | ArgumentParser.cs:164-171 | a cell that no matching flag entry targets keeps its value |
| TokenWalk.UnknownToken | ArgumentParser.cs:185-187 | an option-shaped token no option matches logs exactly one "Unknown argument" error, changes no binding, is not sent to the sink, and the walk goes on |
| TokenWalk.FlagOption | ArgumentParser.cs:169-171 | a token selecting exactly one option, a flag, writes that option's fixed value into its target and nothing else |
| TokenWalk.ValueOption | ArgumentParser.cs:173-182 | in the expanded vector, a token whose first match is a value option, with a token after it that no later entry matches, replaces the target's content by exactly that next token, which is consumed |
| TokenWalk.MissingValue | ArgumentParser.cs:174-178 | a last token whose first match is a value option logs one "requires an argument" error, clears its target, and ends the parse |
| TokenWalk.ScanGrows | ArgumentParser.cs:164-184 | a registry scan keeps the error log and the sink as prefixes and never adds or removes the sink |
| TokenWalk.WalkGrows | ArgumentParser.cs:145-192 | the walk keeps the error log and the sink as prefixes and never adds or removes the sink |
| TokenWalk.ParseGrows | ArgumentParser.cs:142-193 | a whole parse only appends to the error log and to the sink |
| Parser.ArgumentParser.constructor | ArgumentParser.cs:57-61 | a new parser has no options, no errors and no argument list |
| Parser.ArgumentParser.AddOnOption | ArgumentParser.cs:66-75 | a null target appends exactly one error and leaves the registry unchanged; otherwise exactly one flag option setting `true` is appended and the errors are unchanged |
| Parser.ArgumentParser.AddOffOption | ArgumentParser.cs:80-90 | as for on-options, with the flag option setting `false` and the other error text |
| Parser.ArgumentParser.AddValueOption | ArgumentParser.cs:97-106 | a null target appends exactly one error; otherwise exactly one value option is appended |
| Parser.ArgumentParser.AddArgumentList | ArgumentParser.cs:111-113 | the given list, or null, becomes the sink; registry and errors are unchanged |
| Parser.ArgumentParser.AddArgument | ArgumentParser.cs:116-122 | appends to the argument list, or, when there is none, logs one "Adding argument" error |
| Parser.ArgumentParser.ExpandShortGroups | ArgumentParser.cs:125-137 | the nested loops build exactly the expansion of the input vector |
| Parser.ArgumentParser.FireFlag | ArgumentParser.cs:169-171 | writing a matched flag changes that flag's entry and nothing else |
| Parser.ArgumentParser.FireValue | ArgumentParser.cs:173-182 | a matched value option takes the next token as its content, or logs the missing value and clears its target and reports the abort |
| Parser.ArgumentParser.ScanOptions | ArgumentParser.cs:163-184 | the registry loop leaves the heap, the index and the recognized flag as the reference scan says |
| Parser.ArgumentParser.ParseOption | ArgumentParser.cs:163-187 | handling an option-shaped token, including the unknown-token error, advances the reference walk by exactly the tokens the scan consumed, or ends where the walk ends on a missing value |
| Parser.ArgumentParser.ParseToken | ArgumentParser.cs:146-191 | one iteration of the outer loop advances the reference walk by exactly the tokens it consumed |
| Parser.ArgumentParser.Parse | ArgumentParser.cs:142-193 | after a parse the flags, buffers, argument list and error log are those of the reference semantics applied to the expanded tokens |
| Scenarios.DemoParse | CommandArgumentParser/Program.cs:20-23 | with the demo program's options, the example vector parsed: `-a --b-option -c val pos1 -- -a pos2` sets a, clears b, gives c `val`, sends `pos1 -a pos2` to the sink and logs nothing |
| Scenarios.FlagThenMissingValue | ArgumentParser.cs:164-178 | `-a -c` sets a, then logs the missing value of `-c`, clears c's target and stops |
| Scenarios.UnknownShortOption | ArgumentParser.cs:185-187 | `-z` with no such option logs exactly "Unknown argument: -z" and nothing else |
| Scenarios.GroupedFlags | ArgumentParser.cs:125-137 | `-ab` parses exactly as `-a -b` |
| Scenarios.ValueRescanned | ArgumentParser.cs:164-181 | after `-c` consumes `-d`, the later `-d` flag option is compared against that value and fires |
| Scenarios.NullLongNameMatchesConsumedTerminator | ArgumentParser.cs:166-181 | a consumed value `--` matches a later option with a null long name |
| Scenarios.SameNameFlags | ArgumentParser.cs:164-171 | two flag options with the same short name are both written by one token, in registry order |
| Scenarios.SharedCellLastWins | ArgumentParser.cs:164-171 | `-q` selects two flag options on one cell, the first setting `true` and the later `false`: the cell ends `false`; a non-matching entry on that cell has no effect |
| Scenarios.GroupAfterTerminator | ArgumentParser.cs:143-151 | `-- -rf` sends `-r` and `-f` to the argument list, since grouping runs before the walk sees `--` |
| Scenarios.GroupedValue | ArgumentParser.cs:143-187 | `-c -10` gives `c` the value `-1` and logs "Unknown argument: -0", since grouping runs before the walk picks out values |

## Left out

- The demo program in `CommandArgumentParser/Program.cs` parses the process's own arguments and prints to the console; only its option set appears, in `Scenarios.DemoParse`, with an example vector parsed against it.
- The implicit and explicit conversions between `BoolRef` and `bool` (ArgumentParser.cs:35-42) are syntax; the model reads and writes the `value` field.
- `List<string>`, `IList<string>` and `StringBuilder` are modelled only through the operations the parser and the demo use: construction, `Add`, `Clear` and `Append`.
- `Option` is a class in C#, but its properties are only set during registration; it is a value (`Registry.Opt`) holding references to the caller's cells.
- The error list is a field the parser owns. A caller could pass `parser.Errors` itself as the argument list, making the two lists aliases; that aliasing is not modelled.
- `string.StartsWith("-")` is culture-sensitive in .NET; the model tests the first character ordinally.
- A null token vector, and null strings inside it, make the C# code throw; tokens are non-null strings in the model.
- ShortGroups.Expand and Parser.ArgumentParser.ExpandShortGroups count characters as Unicode scalar values, as a Dafny `string` does; C#'s `Length` and indexer count UTF-16 code units. A token holding a character outside the Basic Multilingual Plane therefore differs: `-😀` has length 3 in C# and is split into two lone-surrogate tokens, while the model sees length 2 and passes it through whole. Lone surrogates, in tokens or as a `char?` short name, cannot be represented at all.
- TokenWalk.AddAllSpec, TokenWalk.Terminator and TokenWalk.PositionalParse rely on the sink being modelled as a `List<string>` (ArgumentParser.cs:55, 111, 121): `Add` always appends at the end and never fails. The source accepts any `IList<string>`; one whose `Add` throws (a `string[]`, a read-only collection) makes `Parse` throw at the first positional argument, and one whose `Add` does not append changes the result. Neither is captured.
