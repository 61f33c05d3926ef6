# cli-aid: a Dafny model of the CLI builder and its usage parser

cli-aid is a small Node.js library for building command-line tools.
This project models the library's core and proves properties of the model.
The core has three parts:

- **The `CLI` builder** (`src/CLI.js`). It keeps an option schema that always starts with the built-in `help` and `version` entries. It also keeps a list of registered commands and the package information, from which it derives the usage and version tips. `parse` resolves the tokenizer's output against the schema. Each schema entry takes the value of the first parsed key, in bag order, that is one of its names, coerced to a boolean when its default is a boolean, or else it takes its default. `after` then decides between showing help, showing the version, and running the first registered command whose name is among the positional arguments.
- **The usage-string parser** (`src/utils/minimist.js`). `parseUsage` reads the `<field>` placeholders of a usage string such as `tinify <filename> <imgs...>`. It counts the leading sub-commands, aligns the positional arguments with the fields (a `...` rest field takes all remaining arguments) and reports the missing fields.
- **The small helpers** (`src/utils/lite-lodash.js`): `last`, `isString`, `isFunction` and `isRemoteFile`.

The model has these modules:

- `Wrappers` (`wrappers.dfy`): the `Option` type.
- `Js` (`js.dfy`): the JavaScript values the library handles. It covers truthiness, property lookup, template-string conversion and `Array.prototype.slice` with a possibly negative start.
- `LiteLodash` (`lite_lodash.dfy`).
- `Minimist` (`minimist.dfy`). `parseRequiredFields` keeps its `while (regex.exec(...))` loop as a method. That method is proved against a recursive specification of the placeholders a string holds.
- `Cli` (`cli.dfy`). The `CLI` object is a class whose methods update its fields. The resolution, dispatch and tip-building logic are functions, and lemmas state their properties.

The tokenizer's output is a parameter called a *bag*. It holds the parsed keys with their values, in key order, and the positional arguments. The platform, architecture and Node.js version that the version tips print are also a parameter, `Runtime`.

## Model

| member | source | states |
|---|---|---|
| LiteLodash.Last | src/utils/lite-lodash.js:5-7 | `last` gives nothing exactly for the empty array, and otherwise gives the final element |
| LiteLodash.LastOfAppend | src/utils/lite-lodash.js:5-7 | the last element of `arr + [x]` is `x`; prepending leaves the last element unchanged unless the array was empty |
| LiteLodash.IsString | src/utils/lite-lodash.js:14-16 | `typeof obj === 'string'` holds exactly for string values |
| LiteLodash.IsFunction | src/utils/lite-lodash.js:23-25 | `typeof obj === 'function'` holds exactly for function values |
| LiteLodash.IsRemoteFile | src/utils/lite-lodash.js:30 | the pattern `^https?:\/\/`, read character by character, accepts a path exactly when it starts with `http://` or `https://` |
| LiteLodash.IsRemoteFileExamples | src/utils/lite-lodash.js:30 | the test is anchored, case-sensitive and needs both slashes: ` http://x`, `HTTP://x`, `ftp://x`, `http:/x` and `httpss://x` are not remote |
| Js.JsSlice | src/utils/minimist.js:26-27 | `slice(start)` with a non-negative start drops that many elements, clamped to the length; a negative start keeps that many trailing elements, clamped to the whole array |
| Js.JsSliceIsSuffix | src/utils/minimist.js:26-27 | whatever the start, `slice(start)` gives a suffix of the array |
| Js.Get | src/CLI.js:95-96 | reading a missing property gives `undefined`, and a present one gives its value |
| Js.NatToDecimal | src/CLI.js:96 | the decimal text of a natural number is non-empty, all digits, denotes the number again (`DecimalValue`), and starts with `0` only for zero |
| Js.ToJsString | src/CLI.js:96 | a string converts to itself, `undefined` to "undefined", `null` to "null", a boolean to "true" or "false", a number to its decimal text with a `-` when negative, an object to "[object Object]", the empty array to "" and a one-string array to that string |
| Minimist.CloseIndex | src/utils/minimist.js:65 | the lazy `[^>]+?` stops at the first `>`: the index found holds a `>` and none comes before it; nothing is found only when there is no `>` |
| Minimist.MatchAt | src/utils/minimist.js:65 | `/<([^>]+?)>/` matches at a position exactly when a `<` is followed by a non-empty run without `>` and then a `>`, and the match ends at that first `>` |
| Minimist.Fields | src/utils/minimist.js:59-74 | every field found is non-empty and holds no `>`; each field costs at least three characters of the string |
| Minimist.RegexExec | src/utils/minimist.js:65-69 | `exec` from `lastIndex` gives the leftmost match at or after it: no match starts in between, the pattern matches at the reported index up to the first `>`, the group is the text between `<` and `>`, and the new `lastIndex` is just past the `>`; it gives nothing exactly when no position from `lastIndex` on matches |
| Minimist.GroupAtMatch | src/utils/minimist.js:65 | the group captured by a match is non-empty and holds no `>` |
| Minimist.FieldsAtMatch | src/utils/minimist.js:65-71 | a match at the start of the text gives the first field, and the rest are found from just after its `>` |
| Minimist.ExecHere | src/utils/minimist.js:65-69 | a match found at `lastIndex` is reported at `lastIndex`, its group is the text between the `<` and the `>`, and `lastIndex` moves just past the `>` |
| Minimist.ParseRequiredFields | src/utils/minimist.js:59-74 | the `exec` loop collects exactly the placeholders of the string in order, and nothing for the empty string |
| Minimist.FieldsPlaceholder | src/utils/minimist.js:65-71 | a well-formed `<name>` contributes `name` and matching continues after its `>` |
| Minimist.FieldsSkip | src/utils/minimist.js:65-71 | text without `<` contributes no field |
| Minimist.OptionalIsNotRequired | src/utils/minimist.js:65 | a `[name]` optional field is not a required field |
| Minimist.TemplateFields | src/utils/minimist.js:59-74 | for any command words and field names, the fields parsed from `words <f1> <f2> ...` are exactly those field names, in order |
| Minimist.IsRestField | src/utils/minimist.js:37-39 | `/\.\.\.$/` holds exactly for a field that is some name followed by `...` |
| Minimist.Normalize | src/utils/minimist.js:37-43 | `normalize` removes a trailing `...` exactly when `isRestField` holds, and otherwise leaves the field unchanged |
| Minimist.NormalizeRestMarker | src/utils/minimist.js:37-43 | `name...` is a rest field that normalizes back to `name`; only one trailing `...` is removed |
| Minimist.CommandPart | src/utils/minimist.js:56 | `split(/[\-\<\[]/).shift()` gives the longest prefix holding none of `-`, `<` and `[`, and it ends at one of them or at the end of the string |
| Minimist.Trim | src/utils/minimist.js:56 | `trim()` gives an infix of its input with only white space before and after it, and which neither starts nor ends with white space |
| Minimist.SplitSpaces | src/utils/minimist.js:56 | `split(/ +/)` gives at least one piece, and no piece holds a space |
| Minimist.SplitSpacesRuns | src/utils/minimist.js:56 | the pieces of `split(/ +/)` are the maximal space-free runs of the input: joined back with non-empty space runs they give the input, and only the first and the last may be empty |
| Minimist.SplitInterleave | src/utils/minimist.js:56 | the converse: pieces joined by non-empty space runs split back into exactly those pieces |
| Minimist.GetCommands | src/utils/minimist.js:55-57 | the commands, after some program piece, are the space-run split of the command part (cut at the first `-`, `<` or `[`) once trimmed; no command holds a space |
| Minimist.CommandsOfPieces | src/utils/minimist.js:55-57 | the converse for any input: leading white space, non-empty pieces separated by any runs of spaces, trailing white space and the end of the command part give every piece but the first |
| Minimist.CommandsAfterLeadingSpace | src/utils/minimist.js:13-14 | ` app  a   b <x>` has the two commands `a` and `b` |
| Minimist.TemplateCommands | src/utils/minimist.js:45-57 | for the words of `words <f1> ...`, the commands are every word but the first |
| Minimist.CommandsOfWords | src/utils/minimist.js:55-57 | for words joined by single spaces and followed by spaces and then a `-`, `<` or `[` or nothing, the commands are every word but the first |
| Minimist.CommandsOfTwoWords | src/utils/minimist.js:13-14 | a program name and one command separated by any run of spaces give exactly that command |
| Minimist.GetCommandsStopsAtHyphen | src/utils/minimist.js:45-57 | the documented example `tinify set-key <key> ...` gives `["set"]`: the split also happens at the `-` inside a word |
| Minimist.CommandCountWithSpaceRuns | src/utils/minimist.js:13-14 | `go   run  -v <f1> [f2]` has one command: runs of spaces separate words |
| Minimist.FieldKey | src/utils/minimist.js:17-19 | the key each item is stored under is the field's normalized name, for rest and plain fields alike |
| Minimist.AlignedValue | src/utils/minimist.js:17-19 | a rest field takes every positional from its aligned index on; any other field takes the positional at that index, or `undefined` past the end |
| Minimist.RequiredValues | src/utils/minimist.js:16-22 | the `reduce` over the fields gives an object whose keys are exactly the normalized field names |
| Minimist.RequiredValuesLastWins | src/utils/minimist.js:16-22 | a field's value is the one its own index aligns with, unless a later field has the same normalized name, in which case the later one wins |
| Minimist.MissingFields | src/utils/minimist.js:26-28 | `normalized.slice(positionalArgs.length - cmdCount)` is always a suffix of the normalized fields |
| Minimist.MissingFieldsSuffix | src/utils/minimist.js:26-28 | none are missing when every field has an argument; all are missing when only the commands are given; when fewer positionals than commands are given, the negative start reports just the last `cmdCount - positionals` fields |
| Minimist.NormalizeAll | src/utils/minimist.js:24 | the normalized list has one entry per field, each the field's `normalize` |
| Minimist.ProgramWithFields | src/utils/minimist.js:10-14 | a program name followed only by placeholders has exactly those placeholders as fields and no command |
| Minimist.TinifyTemplate | src/utils/minimist.js:10-14 | `tinify <filename> <imgs...>` has the fields `filename` and `imgs...` and no command |
| Minimist.TinifyNormalized | src/utils/minimist.js:24 | the fields of that usage normalize to `filename` and `imgs` |
| Minimist.PlainThenRest | src/utils/minimist.js:16-22 | a plain field followed by a rest field gives a two-key object: the first positional after the commands for the plain field, and every later positional for the rest field |
| Minimist.TinifyWithoutArguments | src/utils/minimist.js:16-28 | for that usage, no arguments give `filename` undefined and `imgs` an empty array, and both fields are missing |
| Minimist.TinifyWithArguments | src/utils/minimist.js:16-28 | for that usage, three arguments give `filename` the first and `imgs` the other two, and nothing is missing |
| Minimist.ParseUsage | src/utils/minimist.js:10-35 | the result's required fields are the normalized placeholders; its values are the left fold aligned past the commands, keyed by exactly those names; its missing fields are the slice at `positionals - commands`, a suffix of the required fields |
| Cli.DefaultSchema | src/CLI.js:17-20 | the built-in schema has two entries, `help` (with `h` and `docs`) and `version` (with `v`), both defaulting to `false` |
| Cli.Key | src/CLI.js:212 | an entry's canonical name is its first name; an entry with only an options object is keyed by that object's string conversion, `[object Object]` |
| Cli.Items | src/CLI.js:211-212 | a schema entry is its names followed by its options object, when it has one |
| Cli.Property | src/CLI.js:209 | reading a key the parsed entries do not hold gives `undefined`; a key they hold gives the value of its first entry |
| Cli.DefaultOf | src/CLI.js:211 | reading an entry's default throws exactly for an entry with neither names nor options; otherwise the default is the options object's `default`, or `undefined` |
| Cli.FindKey | src/CLI.js:208 | `find` gives the first parsed key that is one of the entry's names, and nothing only when no key is |
| Cli.RawValue | src/CLI.js:208-209 | the raw value is that of the first bag key among the entry's names, and the fallback when no bag key is one of them |
| Cli.ToBoolean | src/CLI.js:9 | `toBoolean` is true for `true`, `"true"` and `""` only; any other string, number, array or object is false |
| Cli.Coerce | src/CLI.js:217-219 | an `undefined` value gives the default; any other value goes through `toBoolean` exactly when the default is a boolean, so a boolean default always gives a boolean |
| Cli.ResolveEntry | src/CLI.js:208-220 | one `reduce` step throws exactly on an empty entry |
| Cli.ParseAgainstSchema | src/CLI.js:206-222 | with the corrected lookup, resolution throws exactly on an empty entry; otherwise the result has exactly the canonical names as keys, and each name holds the value of the last entry with that name |
| Cli.ParseAgainstSchemaAsWritten | src/CLI.js:206-222 | with the lookup as written, resolution throws exactly on an empty entry and otherwise has exactly the canonical names as keys |
| Cli.Resolve | src/CLI.js:207-221 | the `reduce` over the schema throws exactly when some schema entry is empty |
| Cli.ResolveKeys | src/CLI.js:207-222 | the result has exactly one key per distinct canonical name in the schema |
| Cli.ResolveLastWins | src/CLI.js:207-222 | an entry decides its canonical name's value unless a later entry has the same canonical name |
| Cli.EntryFallsBackToDefault | src/CLI.js:217-218 | an entry none of whose names was parsed takes its declared default, which is `undefined` for an entry without options |
| Cli.EntryTakesFirstMatch | src/CLI.js:208-219 | an entry takes the value of the first parsed key among its names; the value goes through `toBoolean` exactly when the default is a boolean, so `--in-place=true` stays a string without one |
| Cli.Parsed | src/CLI.js:187-194 | the stored result, resolved with the corrected lookup, throws exactly on an empty entry; otherwise its keys are the canonical names plus `_`, `_` holds the positionals, and every other name holds the value of the last entry with that name |
| Cli.ParseNoArguments | src/CLI.js:185-199 | with no arguments a fresh CLI parses to `{help: false, version: false, _: []}` |
| Cli.NoFlagsGiveDefaults | src/CLI.js:185-222 | without flags, every canonical name holds its entry's default, the key set is the canonical names plus `_`, and `_` holds the positionals |
| Cli.IsObject | src/CLI.js:167 | `typeof options === 'object' && options` holds exactly for values whose `typeof` is "object" and that are truthy, which leaves out `null` |
| Cli.PropOr | src/CLI.js:168 | destructuring with a default takes a defined property, and gives the default for a missing or `undefined` one |
| Cli.NewCommand | src/CLI.js:151-177 | a command keeps its name; a function passed as options becomes the handler, otherwise the given handler or, when none is given, the no-op; for object options `help` and `usage` are the given ones, or `''` when missing or `undefined`; for other options both stay unset |
| Cli.Registers | src/CLI.js:151-156 | `command` registers exactly when its name is a non-empty string |
| Cli.HasCmd | src/CLI.js:253-255 | `hasCmd` holds exactly when the command's whole name is one of the positionals stored under `_` |
| Cli.FindCommand | src/CLI.js:242 | `find` gives the first registered command whose name is a positional, and nothing only when none is |
| Cli.Decide | src/CLI.js:229-247 | help is shown exactly when `help` is truthy, and version exactly when `help` is falsy and `version` truthy; when both are falsy, the first registered command whose name is a positional runs with the whole parse result as its argument, or throws when its handler is not a function; no other command ever runs; nothing runs exactly when neither flag is on and no command name is a positional |
| Cli.ExactCommandMatch | src/CLI.js:253-255 | `base64xyz` does not run the `base64` command: `includes` compares whole names |
| Cli.UndefinedFlagTurnsHelpOn | src/CLI.js:208-209 | with the lookup as written, `--undefined` alone sets both `help` and `version` and shows help; the corrected lookup keeps both false |
| Cli.AsWrittenAgreesWithoutUndefinedKey | src/CLI.js:208-209 | the as-written and corrected lookups agree on every input without a key named "undefined" |
| Cli.UsageTipsFor | src/CLI.js:95-96 | the usage tips are empty exactly when the package name is falsy; otherwise they are the name followed by ` [OPTIONS]` |
| Cli.PkgVersion | src/CLI.js:108 | the `name/version ` prefix is empty exactly when the name is falsy |
| Cli.PkgInfoFor | src/CLI.js:107-110 | the package info starts with the `name/version ` prefix, is only that prefix without a truthy description, and otherwise adds a blank line and the description in bright cyan |
| Cli.RuntimeTips | src/CLI.js:111 | the runtime description is as long as its three parts plus the seven separator characters |
| Cli.RuntimeTipsParts | src/CLI.js:111 | the platform, the architecture and the Node.js version can each be read back from their places in `<platform>-<arch> node-<version>` |
| Cli.VersionTipsFor | src/CLI.js:111 | the version tips always end with the runtime description |
| Cli.VersionTipsCases | src/CLI.js:107-111 | a named, versioned package gives `name/version <runtime>`; a name alone gives `name/ <runtime>`; an empty or missing name gives only the runtime |
| Cli.CLI.constructor | src/CLI.js:25-69 | the schema is the built-in entries followed by the user's; no parse result or commands yet; the package is `{name, version}`, and the tips are derived from it |
| Cli.CLI.SetPackage | src/CLI.js:79-87 | the package becomes the old one overridden by the new fields; both tips are rebuilt from it; the schema, commands and parse result are unchanged |
| Cli.CLI.SetUsageTips | src/CLI.js:95-99 | stores the usage tips derived from the package name |
| Cli.CLI.SetVersion | src/CLI.js:107-114 | stores the package info and the version tips derived from the package |
| Cli.CLI.SetUsage | src/CLI.js:124-128 | replaces the usage tips |
| Cli.CLI.AddOption | src/CLI.js:136-140 | appends exactly one entry and keeps the built-in entries first |
| Cli.CLI.AddCommand | src/CLI.js:151-177 | chains and appends one command exactly when the name registers, and otherwise leaves the commands unchanged |
| Cli.CLI.Parse | src/CLI.js:185-199 | stores the resolved entries, resolved with the corrected lookup, with `_` set to the positionals; when the schema throws, nothing is stored; the outcome is the dispatch decision on the stored result |
| Cli.CLI.After | src/CLI.js:229-247 | the outcome is the help-then-version-then-first-command decision, so with both flags off the first matching command runs |

## Left out

- The tokenizer (`process-yargs-parser`, re-exported as `minimist`) is not part of this model. Its output, the ordered keys with values plus the positionals, is the `Bag` parameter. Its `config` argument is left out with it.
- Printing help, version, package info and the options and commands tables (`showHelp`, `printOptions`, `printCommands`, `padArray`, `string-width`) is left out: it is console output only. `process.exit(0)` becomes the `ShowHelp` and `ShowVersion` outcomes, and `console.warn` is dropped.
- A command handler's own effects are left out. The model only decides which handler is called and with what argument: `Execute(i, options)` passes the whole parse result, as `cmd.execute(parsed)` does.
- `process.platform`, `process.arch` and `process.version` are the `Runtime` parameter.
- Numbers are unbounded integers. Floating-point values and the number-to-string conversion of fractions are left out, because the library only passes numbers through.
- `Js.ToJsString` prints a function as a fixed placeholder, not as its source text.
- `Object.keys` lists integer-like keys first in JavaScript. The bag's order is taken as given and not re-sorted, so a schema entry with several numeric aliases may pick a different first match.
- A field named `__proto__` is not special in the model. `Object.assign({}, acc, item)` (src/utils/minimist.js:21) writes each key by assignment, so in the source a `<__proto__>` placeholder whose value is a string or `undefined` is silently dropped, and an array value (a rest field) replaces the result's prototype instead of becoming a key. Property reads such as `parsedEntries[key]` (src/CLI.js:209) also see inherited properties, which the model does not have. Object spreads and computed keys (src/CLI.js:80, 192, 215-217; src/utils/minimist.js:18) define own properties, so there `__proto__` is a plain key, as in the model.
- The positionals are strings. The tokenizer's numeric coercion of positionals is left out with the tokenizer.
- `Cli.CLI.SetUsage`: usage tips are strings here; the source accepts any value.
- The `.settings` of the demo scripts and the TypeScript declarations describe callers, not the core.
- The doc comment of `getCommands` (src/utils/minimist.js:49-50) gives `['set-key']` for `tinify set-key <key> <mode> <location>`, but the code splits at every `-` and gives `['set']`. The model follows the code; `Minimist.GetCommandsStopsAtHyphen` states the code's result.
- One test (test/CLI.test.js:249-251) expects a command's handler to receive only `{_}`. The code passes the whole parsed object, with `help`, `version` and every option (src/CLI.js:244). The model follows the code: `Cli.Decide` passes the whole parse result.
- `Cli.Parsed`: like `Cli.CLI.Parse` below, it resolves with the corrected lookup `Cli.ParseAgainstSchema`. On a bag holding the key "undefined" it stores `help` and `version` as `false`, where src/CLI.js:187-194 with lines 208-209 stores them as `true`.
- `Cli.CLI.Parse`: it resolves with the corrected lookup `Cli.ParseAgainstSchema`, not the lookup as written. The two differ only on a bag that holds the key "undefined": there the source turns every unmatched entry on and shows help (`Cli.UndefinedFlagTurnsHelpOn`). On every other bag they agree (`Cli.AsWrittenAgreesWithoutUndefinedKey`).

## Findings

| source | as written | input that shows it | evidently intended | confidence | as-written member | corrected member |
|---|---|---|---|---|---|---|
| src/CLI.js:208-209 | when no parsed key is one of an entry's names, `find` gives `undefined`, and `parsedEntries[undefined]` then reads the property named "undefined" | the argument `--undefined` (bag `{undefined: true}`) with the default schema: `help` and `version` both become `true` and help is shown | an entry without a matching key finds nothing and takes its default, so `help` and `version` stay `false` | not executed | Cli.UndefinedFlagTurnsHelpOn | Cli.ParseAgainstSchema |
