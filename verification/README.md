# convert-argv in Dafny

A model of `bin/convert-argv.js` from webpack-cli. This is the function that turns the parsed
command line (`argv`) into a webpack options object. It works in four stages:

1. It expands the `-d`, `-p` and `--output` shortcuts.
2. It finds the configuration files. These are the explicit `--config` paths, or else the
   first default `webpack.config.*` / `webpackfile.*` that exists, with extensions ordered
   `.js` first and then by length.
3. It loads those files.
4. It runs `processConfiguredOptions` on `{}`, on the single configuration, or on the array of
   them. That step validates the value and unwraps a promise or an ES module `default`. It
   narrows an array by `--config-name` and applies `processOptions` to every configuration.
   Finally it settles `context` and the watch options.

`processOptions` is an ordered table of flag handlers. They are built from four combinators:
`ifArg`, `ifArgPair`, `ifBooleanArg` and `mapArgToBoolean`. Each handler is modelled as a pure
function from the options' properties to new properties, or to the failure the handler would
throw. The first failure stops the run.

The modules follow the program's structure:

| file | module | what it holds |
|---|---|---|
| `wrappers.dfy` | `Wrappers` | `Option` and `Result` |
| `strings.dfy` | `Strings` | `indexOf`, splitting at the first `=`, regular-expression escaping, `split(/,\s*/)`, decimal digits |
| `js_values.dfy` | `JsValues` | JavaScript values, `ensureObject`, `ensureArray`, `addPlugin`, unary `+`, `parseInt` |
| `failures.dfy` | `Failures` | why a conversion stops, and which failures end the process |
| `environment.dfy` | `Environment` | the parsed command line and the services the converter calls, as oracles |
| `appliers.dfy` | `Appliers` | `ifArg`, `ifArgPair`, `ifBooleanArg`, `mapArgToBoolean` |
| `option_writes.dfy` | `OptionWrites` | handlers that copy a value into one field |
| `entries.dfy` | `Entries` | the `entry` flag and the positional arguments |
| `module_rules.dfy` | `ModuleRules` | `module-bind`, `module-bind-pre`, `module-bind-post` |
| `defines.dfy` | `Defines` | `define` |
| `resolve_alias.dfy` | `ResolveAlias` | `resolve-alias`, `resolve-loader-alias` |
| `plugins.dfy` | `Plugins` | the plugin-installing handlers and `loadPlugin` |
| `process_options.dfy` | `ProcessOptions` | `processOptions` in handler order |
| `shortcuts.dfy` | `Shortcuts` | `-d`, `-p`, `--output` |
| `extension_order.dfy` | `ExtensionOrder` | the extension sort |
| `config_locator.dfy` | `ConfigLocator` | config file lookup, compiler registration, loading |
| `pipeline.dfy` | `Pipeline` | `processConfiguredOptions` and the whole conversion |

### External services

These are fields of `Environment.Env`. Each is an uninterpreted function, and the model only
ever calls it:

- `path.resolve`, `isAbsolute`, `basename`, `dirname`, `extname`, `path.sep`, `process.cwd()`;
- `fs.existsSync`, `statSync().isDirectory()`;
- the keys of `interpret.extensions` and the compiler each key names;
- whether a module can be required, and whether its `register` succeeds;
- loading a configuration (`require` followed by `prepareOptions`);
- the schema validator's error list;
- `loader-utils.parseQuery`;
- plugin resolution and construction.

### Value representation

- **Numbers.** Numbers are integers, with NaN kept apart.
- **Objects.** Every object carries its own property map, arrays included. So
  `options.context = …` on an array of configurations is kept on that array.
- **Plugins.** A plugin is a tagged value that records its constructor's arguments.
- **Promises.** A promise is a synchronous wrapper around its settled value.
- **Failures.** A `process.exit(-1)` becomes a failure that `Failures.ExitsProcess` marks. The
  message it would print is kept as well.

## Model

| member | source | states |
|---|---|---|
| Appliers.Occurrences | bin/convert-argv.js:236-253 | a flag that is absent or `null` yields no callback at all; a single non-array value yields exactly one |
| Appliers.IfArg | bin/convert-argv.js:236-253 | when the flag is absent or `null`, `ifArg` changes nothing: not even `init` or `finalize` runs |
| Appliers.IfArgProtocol | bin/convert-argv.js:236-253 | `init` runs once before the first callback and `finalize` once after the last; each array element is visited once, in order, with its index; a lone value is visited once with index -1; an absent or `null` flag produces no event |
| Appliers.ForEachVisits | bin/convert-argv.js:241 | `forEach` visits the elements in order, each paired with its own index |
| Appliers.IfArgFolds | bin/convert-argv.js:236-253 | for a callback that ignores the index, `ifArg` equals `init`, then a left-to-right fold over the occurrences, then `finalize`; an absent flag gives no change |
| Appliers.IfArgPair | bin/convert-argv.js:256-270 | absent flag: no change; a single string value: the callback gets its split at the first `=`; a single non-string value throws |
| Appliers.IfArgPairFolds | bin/convert-argv.js:256-270 | `ifArgPair` equals `init`, then a fold of the split occurrences, then `finalize` |
| Appliers.IfBooleanArg | bin/convert-argv.js:272-278 | an absent flag or a single falsy value does nothing; a single truthy value fires the callback exactly once |
| Appliers.IfBooleanArgCount | bin/convert-argv.js:272-278 | the callback fires exactly once per truthy occurrence and never for a falsy one |
| Appliers.FoldCountsTruthy | bin/convert-argv.js:273-277 | folding the "fire when truthy" callback counts exactly the truthy values |
| Appliers.FoldWritesLastBoolean | bin/convert-argv.js:281-284 | writing each literal boolean in turn leaves the last one; other values leave the options unchanged |
| Appliers.MapArgToBoolean | bin/convert-argv.js:280-285 | the option takes the last literal `true`/`false` among the flag's values; any other value is ignored; no other key changes |
| Strings.IndexOf | bin/convert-argv.js:260 | the result is the first position of the character, or -1 exactly when the character is absent |
| Strings.SplitPair | bin/convert-argv.js:260-265 | the split is at the FIRST `=`: the key holds no `=`, key + "=" + value rebuilds the string, and the value keeps any later `=`; with no `=` the key is missing (JS `null`) and the value is the whole string |
| Strings.SplitPairJoin | bin/convert-argv.js:260-265 | splitting `key=value`, where the key has no `=`, gives back exactly that key and value |
| Strings.IndexOfFrom | bin/convert-argv.js:67 | `indexOf(sub, from)` returns a position at or after `from` where `sub` occurs, or -1 |
| Strings.SuffixProbe | bin/convert-argv.js:67 | the probe `indexOf(ext, length - ext.length) > -1` is true exactly when the path ends with `ext` |
| Strings.EscapeRegExp | bin/convert-argv.js:373 | the escaped name is a source in which every special character is quoted by a backslash and nothing else is quoted; reading it literally gives the name back; a name with no special character is unchanged |
| Strings.SplitExtensions | bin/convert-argv.js:515 | the split on `,\s*` yields at least one piece, and no piece contains a comma; a string with no comma is a single piece |
| Strings.SplitJoinExtensions | bin/convert-argv.js:515 | a list joined with a comma and white space is split back into exactly that list |
| JsValues.EnsureObject | bin/convert-argv.js:324-328 | an object already at the key is kept as it is; anything else there (missing, `null`, a primitive) becomes `{}`; no other key changes |
| JsValues.EnsureArray | bin/convert-argv.js:330-334 | an array already at the key is kept; anything else becomes `[]`; no other key changes |
| JsValues.AddPlugin | bin/convert-argv.js:336-339 | the plugin goes to the FRONT of `plugins`, ahead of the existing ones; `plugins` is created when it is not an array; no other key changes |
| JsValues.ToNumber | bin/convert-argv.js:215 | unary `+` always gives a number or NaN, and a number is unchanged |
| JsValues.ToNumberOfDecimal | bin/convert-argv.js:215 | a decimal string coerces to the number it spells |
| JsValues.ParseInt | bin/convert-argv.js:524 | `parseInt` always gives a number or NaN, and a number is unchanged |
| JsValues.ParseIntOfDecimal | bin/convert-argv.js:524 | `parseInt` reads the leading decimal number and ignores whatever follows the digits |
| Shortcuts.DebugShortcut | bin/convert-argv.js:14-23 | without `-d` the flags are unchanged; with `-d`, `debug` and `output-pathinfo` become true, a falsy `devtool` becomes `eval-cheap-module-source-map`, a falsy `mode` becomes `development`, and every other flag is kept |
| Shortcuts.ProductionShortcut | bin/convert-argv.js:24-32 | without `-p` the flags are unchanged; with `-p`, `optimize-minimize` becomes true, `define` becomes the earlier defines followed by `process.env.NODE_ENV="production"`, a falsy `mode` becomes `production`, and every other flag is kept |
| Shortcuts.PriorDefines | bin/convert-argv.js:26-28 | `[].concat(argv.define \|\| [])`: no truthy `define` gives no definitions, an array gives its elements, any other value gives itself alone |
| Shortcuts.OutputShortcut | bin/convert-argv.js:34-41 | with `--output`, success exactly when both `output` and `o` are strings; `output-filename` is then the base name and `output-path` the directory of the file, resolved unless `argv.o` is absolute |
| Shortcuts.ApplyShortcuts | bin/convert-argv.js:14-41 | the positional arguments are untouched; with none of the three shortcuts, the command line is unchanged |
| Shortcuts.DebugWinsMode | bin/convert-argv.js:14-32 | with `-d`, `-p` and no `mode`, the mode is `development`, because `-d` runs first |
| Shortcuts.OutputWithoutAlias | bin/convert-argv.js:34-38 | `--output` without `argv.o` throws, because the absolute-path test reads `argv.o` |
| Shortcuts.ProductionDefinesNodeEnv | bin/convert-argv.js:24-28 | after `-p`, the DefinePlugin that `define` installs maps `process.env.NODE_ENV` to `"production"`, whatever was defined before |
| ExtensionOrder.SortByLength | bin/convert-argv.js:45-47 | the result is a permutation of the input, ordered by non-decreasing length |
| ExtensionOrder.InsertSorted | bin/convert-argv.js:45-47 | inserting into a list sorted by length keeps it sorted |
| ExtensionOrder.SortIsStable | bin/convert-argv.js:45-47 | elements of equal length keep their relative order |
| ExtensionOrder.SortExtensions | bin/convert-argv.js:45-47 | `.js`, when registered, comes first, and the rest is ordered by length; without `.js` the whole list is ordered by length |
| ExtensionOrder.SortExtensionsPermutes | bin/convert-argv.js:45-47 | the sorted list holds exactly the registered extensions |
| ExtensionOrder.SortExtensionsStable | bin/convert-argv.js:45-47 | extensions of the same length keep their registration order (with `.js` in front) |
| ConfigLocator.DefaultConfigFiles | bin/convert-argv.js:48-59 | the default list is every `webpack.config` + extension, then every `webpackfile` + extension, each resolved and tagged with its extension |
| ConfigLocator.FirstExistingIndex | bin/convert-argv.js:89-98 | the position of the first file that exists, or -1 exactly when none exists |
| ConfigLocator.FirstExisting | bin/convert-argv.js:89-98 | the search takes at most one file: the first existing one, or none exactly when no file exists |
| ConfigLocator.LastSuffix | bin/convert-argv.js:64-71 | the extensions are probed from the back: the result is the last one the path ends with, or none |
| ConfigLocator.ConfigExtension | bin/convert-argv.js:63-73 | `getConfigExtension` returns the last listed extension the path ends with, or `extname` when none matches |
| ConfigLocator.Locator | bin/convert-argv.js:75-82 | an explicit path maps to its resolved path and that path's config extension |
| ConfigLocator.ExplicitConfigFiles | bin/convert-argv.js:84-87 | the explicit values map one-to-one onto files, in order; the mapping fails exactly when a value is not a string |
| ConfigLocator.ConfigFiles | bin/convert-argv.js:62-99 | without a truthy `config`, the files are the first existing default; with it, they are the explicit values mapped one-to-one (an array, or a single value) |
| ConfigLocator.ExplicitIgnoresFileSystem | bin/convert-argv.js:62-87 | explicit files are taken without any existence check |
| ConfigLocator.DefaultPrefersWebpackConfig | bin/convert-argv.js:48-98 | an existing `webpack.config.js` is chosen whenever `.js` is the first extension, even if a `webpackfile` exists |
| ConfigLocator.RegisterCompiler | bin/convert-argv.js:101-118 | no descriptor: nothing is required; a module name is required; `{ module, register }` is required, then registered; a list of alternatives never fails |
| ConfigLocator.TryAlternatives | bin/convert-argv.js:108-115 | the loop over alternatives never fails |
| ConfigLocator.AlternativesAllFail | bin/convert-argv.js:108-115 | when no alternative registers, nothing is registered and the conversion goes on |
| ConfigLocator.FirstAlternativeWins | bin/convert-argv.js:108-115 | the first alternative that registers is used, and later ones are never tried |
| ConfigLocator.LoadConfigs | bin/convert-argv.js:139-142 | loading succeeds exactly when every file's compiler registers and the file loads; the results then match the files one-to-one |
| ConfigLocator.StartValue | bin/convert-argv.js:146-152 | no file gives `{}`, one gives that configuration, several give the array of them |
| OptionWrites.TopWriteAbsorbs | bin/convert-argv.js:341-343 | a second write of the same field replaces the first entirely |
| OptionWrites.NestedWriteAbsorbs | bin/convert-argv.js:419-423 | a second write of `options[key][field]` replaces the first entirely |
| OptionWrites.ExtensionList | bin/convert-argv.js:510-517 | an array is used as it is, a string is split on `,\s*`, and anything else throws |
| OptionWrites.FoldWrites | bin/convert-argv.js:236-253 | writing every value in turn fails exactly when one cannot be converted, and otherwise leaves the last one written |
| OptionWrites.ApplyWrite | bin/convert-argv.js:236-253 | a writing handler fails exactly when some occurrence cannot be converted; otherwise the last occurrence is the one written |
| OptionWrites.CopyArg | bin/convert-argv.js:341-343 | `mode` (also `target` and `devtool`): the field takes the last occurrence; nothing else changes, and nothing at all when the flag is absent |
| OptionWrites.OutputArg | bin/convert-argv.js:419-458 | `options.output[field]` takes the last occurrence; an existing `output` object keeps its kind and its other fields; nothing outside `output` changes |
| OptionWrites.OutputPath | bin/convert-argv.js:414-417 | `options.output.path` is the resolved last occurrence; the handler fails exactly when an occurrence is not a string |
| OptionWrites.RecordsPath | bin/convert-argv.js:460-470 | the `records-*` field is the resolved last occurrence; the handler fails exactly when an occurrence is not a string |
| OptionWrites.ResolveExtensions | bin/convert-argv.js:510-517 | `options.resolve.extensions` is the last occurrence converted by `ExtensionList`; the handler fails exactly when an occurrence is neither array nor string; nothing outside `resolve` changes |
| OptionWrites.ResolveExtensionsOfJoined | bin/convert-argv.js:510-517 | `--resolve-extensions ".js, .jsx"` yields exactly the list `[".js", ".jsx"]` |
| OptionWrites.FoldPathinfo | bin/convert-argv.js:445-448 | any number of truthy occurrences sets `pathinfo` just as one does; no truthy occurrence changes nothing |
| OptionWrites.OutputPathinfo | bin/convert-argv.js:445-448 | a truthy occurrence sets `options.output.pathinfo` to `true` and changes nothing outside `output`; falsy ones do nothing |
| Entries.EntryKey | bin/convert-argv.js:261-262 | an occurrence without `=` is stored under the property `"null"` |
| Entries.Concat | bin/convert-argv.js:348-352 | nothing or `null` there: the module alone; otherwise the flattened list is what was there (spread when an array) followed by the module |
| Entries.AddEntry | bin/convert-argv.js:347-355 | one callback always succeeds: its name holds the concatenation of what was there and the module, every other name and every key outside `entry` is kept |
| Entries.AccumulatedStep | bin/convert-argv.js:348-355 | adding one module to the closed form is the same as applying the handler's concat step once |
| Entries.FoldEntries | bin/convert-argv.js:345-360 | folding the occurrences leaves, under every name, the closed form of what was there plus the modules given for that name; nothing outside `entry` changes |
| Entries.ApplyEntry | bin/convert-argv.js:345-360 | `entry` fails exactly when an occurrence is not a string; otherwise `options.entry` is an object and nothing outside it changes |
| Entries.EntryFoldFails | bin/convert-argv.js:345-360 | the `entry` walk fails exactly when some occurrence is not a string |
| Entries.EntryAccumulation | bin/convert-argv.js:345-360 | for every name, the result is what was there followed by the modules given for that name, in order: one flat array, or the module alone for a single one on an empty slot |
| Entries.EntryRepeated | bin/convert-argv.js:345-360 | `--entry foo=./a.js` twice gives `foo: ["./a.js", "./a.js"]`, a flat array |
| Entries.EntryWithoutName | bin/convert-argv.js:345-360 | `--entry ./a.js` stores the request under the property `"null"` |
| Entries.PositionalTarget | bin/convert-argv.js:593-610 | a token with no `=`, or with a `?` before the first `=`, goes to `main`, resolved (with a separator for a directory) only when the path exists; otherwise it splits at the first `=` into bundle name and module |
| Entries.AddTo | bin/convert-argv.js:583-592 | `addTo` writes only the named slot and always fills it |
| Entries.AddPositionals | bin/convert-argv.js:593-611 | every name already there survives, and every token's bundle name is present afterwards |
| Entries.AddedUpStep | bin/convert-argv.js:583-592 | one `addTo` on the closed form equals the closed form with one more module: a scalar is promoted to an array before the push |
| Entries.AddToSlot | bin/convert-argv.js:583-592 | `addTo` reads and writes only the named slot |
| Entries.FoldPositionals | bin/convert-argv.js:593-611 | after all tokens, each name holds the closed form of what was there plus its modules, in token order |
| Entries.WrapEntry | bin/convert-argv.js:576-580 | a string or array `entry` is wrapped as `{ main: entry }`; anything else is left as it is |
| Entries.ApplyPositionals | bin/convert-argv.js:575-612 | no positional argument changes nothing; a token that is not a string (a number) throws the TypeError of `content.indexOf`; otherwise `options.entry` becomes an object that keeps every name it had after wrapping and gains every token's bundle name, and nothing outside it changes |
| Entries.PositionalAccumulation | bin/convert-argv.js:575-612 | for every name, the positional tokens leave what was there (after wrapping) followed by the modules given for that name |
| Entries.WrappedMain | bin/convert-argv.js:576-580 | after wrapping, `main` holds the former string or array `entry` |
| Entries.AddedUpPromotes | bin/convert-argv.js:585-588 | a truthy scalar slot becomes a two-element array: the scalar, then the new module |
| Entries.PositionalPromotes | bin/convert-argv.js:575-612 | `entry: "./a.js"` and a non-file positional `./b.js` give `main: ["./a.js", "./b.js"]` |
| ModuleRules.Binding | bin/convert-argv.js:366-369 | without `=`, the name is the binding and the loader is that name + `-loader` |
| ModuleRules.Rule | bin/convert-argv.js:370-382 | the rule's test is the regular expression `\.` + escaped extension + `$`, with the given loader; `-pre`/`-post` set `enforce` to `pre`/`post`, and plain `module-bind` sets none |
| ModuleRules.RuleTestNamesExtension | bin/convert-argv.js:371-375 | the test source starts with `\.`, ends with `$`, and between them reads back as exactly the extension |
| ModuleRules.BindInit | bin/convert-argv.js:385-388 | the init makes `module` an object and `module.rules` an array, keeping any rules already there |
| ModuleRules.RulesFor | bin/convert-argv.js:362-393 | one rule per occurrence |
| ModuleRules.RulesForIndex | bin/convert-argv.js:362-393 | the i-th new rule is built from the i-th occurrence |
| ModuleRules.AppendRule | bin/convert-argv.js:364-383 | the `module-bind*` callback (`PushRule` wraps it) always succeeds, appends exactly the occurrence's rule to the rules list, and changes nothing outside `module` |
| ModuleRules.PushRuleStep | bin/convert-argv.js:383 | one callback appends one rule and changes nothing else |
| ModuleRules.FoldRules | bin/convert-argv.js:362-393 | the fold appends the occurrences' rules after the existing ones, in flag order |
| ModuleRules.RuleFoldFails | bin/convert-argv.js:362-393 | the walk fails exactly when an occurrence is not a string |
| ModuleRules.BindRules | bin/convert-argv.js:362-393 | the existing rules stay first, followed by one rule per occurrence in flag order; nothing else changes; failure exactly on a non-string occurrence |
| ModuleRules.BindOne | bin/convert-argv.js:362-393 | `--module-bind css=style!css` adds one rule testing `\.css$` with that loader and no `enforce` |
| Defines.DefineValue | bin/convert-argv.js:399-402 | an occurrence without `=` defines `true` |
| Defines.DefinedByOccurrence | bin/convert-argv.js:395-412 | every occurrence's name is defined |
| Defines.OccurrenceOfDefined | bin/convert-argv.js:395-412 | every defined name comes from some occurrence |
| Defines.DefinitionKeys | bin/convert-argv.js:395-412 | a name is defined exactly when some occurrence defines it |
| Defines.DefinitionLastWins | bin/convert-argv.js:403 | a later duplicate wins: a name holds the value of its last occurrence |
| Defines.DefineStep | bin/convert-argv.js:398-404 | one callback leaves the options alone and defines exactly one more name, the occurrence's, with its value; every other definition is kept |
| Defines.DefineFinalize | bin/convert-argv.js:408-411 | the finalize puts one DefinePlugin holding the definitions in front of the plugins and changes no other key |
| Defines.DefineStepDefines | bin/convert-argv.js:398-404 | one callback defines one name and leaves the options alone |
| Defines.FoldDefines | bin/convert-argv.js:395-412 | the fold collects exactly the definitions of the occurrences and leaves the options alone |
| Defines.DefineFoldFails | bin/convert-argv.js:395-412 | the walk fails exactly when an occurrence is not a string |
| Defines.DefineWalk | bin/convert-argv.js:395-412 | `define` is: start from `{}`, collect every occurrence, then install one DefinePlugin holding the result |
| Defines.ApplyDefine | bin/convert-argv.js:395-412 | absent or `null` flag: no plugin; otherwise exactly one DefinePlugin holding all the definitions goes in front of the existing plugins, and nothing else changes |
| ResolveAlias.SetAlias | bin/convert-argv.js:502-504 | `options[key].alias[name]` is set, the rest of `options[key]` and of the options is kept |
| ResolveAlias.AliasStep | bin/convert-argv.js:498-505 | for every options object and occurrence: success exactly when the name is non-empty, failure otherwise with the `--arg <string>=<string>` error; a success sets that alias in `options[key].alias` and changes nothing outside `options[key]` |
| ResolveAlias.AliasLastWins | bin/convert-argv.js:496-508 | a later occurrence of an alias name overrides an earlier one |
| ResolveAlias.AliasStepSets | bin/convert-argv.js:498-505 | a named occurrence sets exactly its alias |
| ResolveAlias.SetAliasOver | bin/convert-argv.js:502-504 | each new alias is laid over the ones set before it, outside of which nothing changes |
| ResolveAlias.FoldAliasesWalk | bin/convert-argv.js:496-508 | when every occurrence names an alias, the aliases are laid over the existing ones in flag order |
| ResolveAlias.FoldAliases | bin/convert-argv.js:496-508 | the same, for occurrences that all name an alias |
| ResolveAlias.AliasPairedStep | bin/convert-argv.js:498-501 | one occurrence succeeds exactly when it is a string with a non-empty name before its `=` |
| ResolveAlias.AliasFoldFailsWalk | bin/convert-argv.js:496-508 | the walk fails exactly when some occurrence does not name an alias |
| ResolveAlias.AliasFoldFails | bin/convert-argv.js:496-508 | the same, stated for every position |
| ResolveAlias.ApplyResolveAlias | bin/convert-argv.js:496-508 | fails exactly when an occurrence lacks a name; otherwise `options[key].alias` holds the old aliases overlaid by the new ones, and nothing else changes |
| ResolveAlias.AliasNeedsName | bin/convert-argv.js:499-501 | a lone value without `=`, or with nothing before its `=`, throws |
| Plugins.Copies | bin/convert-argv.js:478-491 | n copies of the same plugin |
| Plugins.FireStep | bin/convert-argv.js:478-481 | a truthy occurrence adds the plugin in front; a falsy one changes nothing |
| Plugins.FoldFires | bin/convert-argv.js:478-491 | one copy of the plugin per truthy occurrence goes in front; no other key changes |
| Plugins.BooleanPlugin | bin/convert-argv.js:478-491 | `hot`, `debug`, `optimize-minimize`: one plugin per truthy occurrence in front of the existing ones; no truthy occurrence, no change |
| Plugins.ApplyHot | bin/convert-argv.js:478-481 | never fails; one HotModuleReplacementPlugin per truthy `hot` in front, nothing else changes, and no truthy occurrence changes nothing |
| Plugins.ApplyDebug | bin/convert-argv.js:483-491 | never fails; one LoaderOptionsPlugin `{ debug: true }` per truthy `debug` in front, nothing else changes |
| Plugins.ApplyMinimize | bin/convert-argv.js:539-547 | never fails; one LoaderOptionsPlugin `{ minimize: true }` per truthy `optimize-minimize` in front, nothing else changes |
| Plugins.HotOnce | bin/convert-argv.js:478-481 | `--hot` installs exactly one HotModuleReplacementPlugin in front |
| Plugins.Installed | bin/convert-argv.js:519-569 | no occurrence yields more than one plugin |
| Plugins.InstalledIndex | bin/convert-argv.js:336-339 | with every occurrence built, the i-th occurrence's plugin sits at position `n - 1 - i`: latest first |
| Plugins.InstalledLength | bin/convert-argv.js:519-569 | when every occurrence builds, there is one plugin per occurrence |
| Plugins.InstallStep | bin/convert-argv.js:519-569 | one occurrence adds its plugin in front, or fails as its construction does |
| Plugins.FoldInstallsWalk | bin/convert-argv.js:519-569 | the walk fails exactly when some occurrence's plugin cannot be built |
| Plugins.FoldInstallsAll | bin/convert-argv.js:519-569 | when every plugin builds, the plugins are put in front, latest first, and nothing but `plugins` changes |
| Plugins.FoldInstalls | bin/convert-argv.js:519-569 | both facts, stated for every position |
| Plugins.InstallEach | bin/convert-argv.js:519-569 | one plugin per occurrence, latest first, in front of the existing ones; failure exactly when some plugin cannot be built |
| Plugins.Provide | bin/convert-argv.js:554-565 | `provide` without `=` provides a module under its own name; with `=`, name and module are the two sides of the first `=`; a non-string throws |
| Plugins.ProvideOfPair | bin/convert-argv.js:554-565 | `--provide name=module` reads back as exactly that name and module |
| Plugins.ApplyMaxChunks | bin/convert-argv.js:519-527 | one LimitChunkCountPlugin per occurrence in front, with `parseInt` of the value |
| Plugins.ApplyMinChunkSize | bin/convert-argv.js:529-537 | one MinChunkSizePlugin per occurrence in front, with `parseInt` of the value |
| Plugins.ApplyPrefetch | bin/convert-argv.js:549-552 | one PrefetchPlugin per occurrence in front |
| Plugins.ApplyProvide | bin/convert-argv.js:554-565 | one ProvidePlugin per occurrence in front; failure exactly on a non-string occurrence |
| Plugins.MaxChunksOfDecimal | bin/convert-argv.js:519-527 | `--optimize-max-chunks 5` installs `LimitChunkCountPlugin({ maxChunks: 5 })` |
| Plugins.SplitRequest | bin/convert-argv.js:291-295 | a request splits at its first `?` into the module name and the query; with no `?` there is no query; the empty request is probed as a query |
| Plugins.SplitRequestJoin | bin/convert-argv.js:291-295 | `name?query` splits back into exactly `name` and `?query` |
| Plugins.LoadPlugin | bin/convert-argv.js:287-322 | bad arguments, an unresolvable name, an unloadable module and a failing constructor each give their own failure, in that order; otherwise the plugin is built from the resolved path and the parsed query |
| Plugins.ApplyPlugin | bin/convert-argv.js:567-569 | one loaded plugin per occurrence, latest first; failure exactly when some request cannot be loaded |
| Plugins.LoadPluginWithQuery | bin/convert-argv.js:287-322 | `--plugin name?query` resolves `name` and hands the parsed `?query` to the constructor |
| ProcessOptions.ChainWithin | bin/convert-argv.js:341-573 | handlers run in order that each write only inside a set of keys together write only inside it |
| ProcessOptions.ChainIdle | bin/convert-argv.js:341-573 | handlers run in order that each change nothing together change nothing |
| ProcessOptions.Widen | bin/convert-argv.js:341-573 | a handler that writes only inside some keys writes only inside any larger set |
| ProcessOptions.StageLaws | bin/convert-argv.js:341-573 | a run of handlers, each idle without its flag and writing only inside a set, is idle without all its flags and writes only inside the set |
| ProcessOptions.ChainHead | bin/convert-argv.js:341-573 | when the first handler of a run succeeds and every later one changes nothing, the run ends where the first left the options |
| ProcessOptions.ModuleStepsWithin | bin/convert-argv.js:341-412 | `mode` writes only `mode`, `entry` only `entry`, the `module-bind*` flags only `module`, `define` only `plugins` |
| ProcessOptions.ModuleStepsIdle | bin/convert-argv.js:341-412 | each handler of `mode`, `entry`, `module-bind*`, `define` does nothing when its flag is absent |
| ProcessOptions.OutputStepsWithin | bin/convert-argv.js:414-458 | every `output-*` handler writes only `output` |
| ProcessOptions.OutputStepsIdle | bin/convert-argv.js:414-458 | every `output-*` handler does nothing when its flag is absent |
| ProcessOptions.RecordsStepsWithin | bin/convert-argv.js:460-474 | each `records-*` flag writes only its own field, `target` only `target` |
| ProcessOptions.RecordsStepsIdle | bin/convert-argv.js:460-474 | each `records-*` and `target` handler does nothing when its flag is absent |
| ProcessOptions.ResolveStepsWithin | bin/convert-argv.js:476-517 | `cache` writes only `cache`, `hot` and `debug` only `plugins`, `devtool` only `devtool`, the alias flags only `resolve` or `resolveLoader`, `resolve-extensions` only `resolve` |
| ProcessOptions.ResolveStepsIdle | bin/convert-argv.js:476-517 | each of those handlers does nothing when its flag is absent |
| ProcessOptions.OptimizeStepsWithin | bin/convert-argv.js:519-573 | the plugin flags write only `plugins`, `bail` only `bail`, `profile` only `profile` |
| ProcessOptions.OptimizeStepsIdle | bin/convert-argv.js:519-573 | each of those handlers does nothing when its flag is absent |
| ProcessOptions.ModuleStage | bin/convert-argv.js:341-412 | with none of `mode`, `entry`, `module-bind*`, `define` given, the options are unchanged; in any case no key but `mode`, `entry`, `module`, `plugins` changes |
| ProcessOptions.OutputStage | bin/convert-argv.js:414-458 | with no `output-*` flag given, the options are unchanged; in any case no key but `output` changes |
| ProcessOptions.RecordsStage | bin/convert-argv.js:460-474 | with no `records-*` flag and no `target`, the options are unchanged; in any case no key but `recordsInputPath`, `recordsOutputPath`, `recordsPath`, `target` changes |
| ProcessOptions.ResolveStage | bin/convert-argv.js:476-517 | with none of `cache`, `hot`, `debug`, `devtool`, `resolve-*` given, the options are unchanged; in any case no key but `cache`, `plugins`, `devtool`, `resolve`, `resolveLoader` changes |
| ProcessOptions.OptimizeStage | bin/convert-argv.js:519-573 | with none of the `optimize-*` flags, `prefetch`, `provide`, `plugin`, `bail`, `profile` given, the options are unchanged; in any case no key but `plugins`, `bail`, `profile` changes |
| ProcessOptions.AllStepsWithin | bin/convert-argv.js:341-573 | every flag handler, in the converter's order, writes only keys some handler is meant to write |
| ProcessOptions.AllStepsIdle | bin/convert-argv.js:341-573 | the `i`-th handler of the whole run does nothing when the `i`-th flag is absent |
| ProcessOptions.ApplyFlags | bin/convert-argv.js:341-573 | with no flag given the options are unchanged; in any case only keys some handler writes can change |
| ProcessOptions.ProcessOptions | bin/convert-argv.js:341-612 | with no flag given and no positional argument, the options come back unchanged; in any case only keys some handler writes can change |
| ProcessOptions.KeepsUnhandled | bin/convert-argv.js:341-612 | a key no handler writes comes out as it went in |
| ProcessOptions.UnhandledKeys | bin/convert-argv.js:341-612 | `context`, `watch`, `watchOptions` and `name` are among the keys no handler of `processOptions` writes |
| ProcessOptions.ModeOnly | bin/convert-argv.js:341-343 | `--mode m` alone sets `options.mode` and changes nothing else |
| ProcessOptions.ModeOnlyModule | bin/convert-argv.js:341-412 | `--mode m` alone: the first handlers set `mode` and nothing else |
| ProcessOptions.ModeFlagFirst | bin/convert-argv.js:341-573 | `mode` is read by the first handler of the run and by no other |
| Pipeline.Named | bin/convert-argv.js:181-184 | the filter keeps only configurations whose `name` is strictly equal to the `--config-name` value; with no match it is empty |
| Pipeline.NamedKeepsMatches | bin/convert-argv.js:181-184 | every matching configuration is kept |
| Pipeline.NamedOnly | bin/convert-argv.js:181-184 | when exactly one configuration matches, the filter yields exactly it |
| Pipeline.ProcessOne | bin/convert-argv.js:196-197 | one configuration of an array is processed in place, keeping its kind; a primitive fails |
| Pipeline.EachOf | bin/convert-argv.js:196-197 | `forEach` with a throwing callback: all results in order, or the first failure, with every element before it processed |
| Pipeline.ApplyContext | bin/convert-argv.js:202-207 | a given `--context` is resolved and wins; otherwise a truthy configured context is kept; otherwise the working directory is used; only `context` changes |
| Pipeline.EnsureWatchOptions | bin/convert-argv.js:214 | `watchOptions` is created as `{}` unless it is already truthy |
| Pipeline.WatchSet | bin/convert-argv.js:215 | one field of the watch options is set; a write to a primitive is lost |
| Pipeline.PollValue | bin/convert-argv.js:220-223 | `"true"` and `""` give `true`; otherwise a value whose unary `+` is a number gives that number, and one whose `+` is NaN gives nothing |
| Pipeline.WatchFlag | bin/convert-argv.js:209-211 | `--watch` sets `watch` to `true` and nothing else |
| Pipeline.AggregateTimeout | bin/convert-argv.js:213-216 | `--watch-aggregate-timeout t` sets `watchOptions.aggregateTimeout` to `+t` |
| Pipeline.WatchPoll | bin/convert-argv.js:218-224 | a defined `--watch-poll` always creates the watch options and sets `poll` as `PollValue` says |
| Pipeline.WatchStdin | bin/convert-argv.js:226-230 | `--watch-stdin` sets `watchOptions.stdin` and `watch` to `true` |
| Pipeline.ApplyWatch | bin/convert-argv.js:209-230 | with no watch flag the options are unchanged; `--watch` or `--watch-stdin` turn watching on |
| Pipeline.WatchFrame | bin/convert-argv.js:209-230 | the watch flags touch nothing but `watch` and `watchOptions` |
| Pipeline.PollNormalised | bin/convert-argv.js:218-224 | on options without watch settings, `poll` is exactly `true`, the number, or absent, while `watchOptions` is still created |
| Pipeline.StdinWatches | bin/convert-argv.js:226-230 | `--watch-stdin` turns watching on and sets `watchOptions.stdin` |
| Pipeline.Settle | bin/convert-argv.js:202-230 | the context the watch steps leave is the one the context step chose |
| Pipeline.Configure | bin/convert-argv.js:196-207 | processing keeps an array an array of the same length, and an object an object |
| Pipeline.ProcessConfigured | bin/convert-argv.js:154-233 | invalid input fails before anything else, with the validator's errors; `null` fails; every success is an object with a `context` |
| Pipeline.HasDefault | bin/convert-argv.js:176 | the `default` export is unwrapped exactly when the configuration is a non-null object whose `default` has `typeof` `"object"` (`null` included) |
| Pipeline.PromiseDefers | bin/convert-argv.js:170-173 | a promise is processed once it settles: the same outcome, only deferred |
| Pipeline.ContextPriority | bin/convert-argv.js:202-207 | for a configuration object, `--context` beats the configured context, which beats the working directory |
| Pipeline.DefaultUnwraps | bin/convert-argv.js:175-178 | an object `default` export is what gets processed |
| Pipeline.ConfigNameNotFound | bin/convert-argv.js:185-189 | a `--config-name` that matches nothing ends the process with "Configuration with name '<n>' was not found." |
| Pipeline.ConfigNameSingle | bin/convert-argv.js:190-191 | exactly one match is processed on its own |
| Pipeline.ConfigNameSeveral | bin/convert-argv.js:193-197 | several matches are processed as a new array holding only them, in their original order |
| Pipeline.ConvertArgv | bin/convert-argv.js:10-152 | a failing shortcut stops the conversion with its error; a successful conversion located its config files |
| Pipeline.NoConfigStartsEmpty | bin/convert-argv.js:146-147 | with no `--config` and no default file, the options are built from `{}` |

## Left out

- `registerCompiler` and `requireConfig` internals: a module that can be required, a `register` that succeeds and the value a configuration file loads are oracles. `argv.configRegister`, `module.paths` and `prepareOptions` are folded into the loading oracle.
- Partial effects: an alternative compiler that fails after part of its work still counts as a plain failure. Partial changes to the options before a handler throws are likewise not kept, because a failure stops the conversion.
- `loadPlugin` internals: `enhanced-resolve`, `require`, `new Plugin(args)` and `loader-utils.parseQuery` are oracles, and only the split at the first `?` is modelled. The plugin messages are kept, but JavaScript's text for the caught exception is not.
- Schema validation: the validator's error list is an oracle, so the schema's content is not modelled.
- Console output: it is not modelled. `process.exit(-1)` becomes a failure marked by `Failures.ExitsProcess`.
- The path module and the file system are oracles, so no path algebra is modelled.
- Promises: only a promise object is unwrapped. A plain object with a `then` function, rejection and scheduling are not modelled.
- Numbers: only integers and NaN are modelled. Floats, hexadecimal, exponents, `Infinity` and signs in unary `+` give NaN here. `parseInt` reads a sign and decimal digits only.
- Property order of objects is not modelled: properties are a map.
- A primitive or `undefined` configuration reaching `processOptions` becomes a TypeError. The source writes to it in sloppy mode and only fails on the first nested read.
- A primitive element of an array configuration is treated the same way.
- Array index properties and inherited properties, such as a configuration named by its array position or `Object.prototype` members, are not modelled.
- Nested arrays inside a flag value are passed to the callback as one value, which is what `forEach` does too. Their coercions in `indexOf` and `split` are not modelled; they are reported as a TypeError.
- Configure (Pipeline.Configure): its contract states only the shape of the result. The work is stated by `Pipeline.EachOf`, `Pipeline.ProcessOne` and `Pipeline.Settle`, which it calls.
- ProcessConfigured (Pipeline.ProcessConfigured): its contract states validation, `null` and the shape of a success. The promise, `default` and `--config-name` cases are stated by the lemmas that follow it.
- ConvertArgv (Pipeline.ConvertArgv): its contract states only the shortcut and locator steps. The empty start is stated by `Pipeline.NoConfigStartsEmpty`.
- ProcessOptions (ProcessOptions.ProcessOptions): its contract, and those of the five stages, state the no-flag case and which keys may change. What each handler writes into those keys is stated by the handler's own member, not restated for the whole run.
- TryAlternatives (ConfigLocator.TryAlternatives): its contract states only that the loop never fails. Which alternative wins is stated by `ConfigLocator.FirstAlternativeWins` and `ConfigLocator.AlternativesAllFail`.
- PositionalAccumulation (Entries.PositionalAccumulation): it assumes the modules given for the name are non-empty strings. An empty module leaves a falsy slot that the next one overwrites instead of extending.
- AddedUpStep (Entries.AddedUpStep): it requires the modules to be non-empty, for the same reason. With `webpack a= a=./x.js`, `addTo` stores `""` under `a` and then overwrites it with `./x.js`, which the closed form `AddedUp` does not describe. `Entries.AddPositionals` still runs such tokens and keeps the names.
- FoldPositionals (Entries.FoldPositionals): it carries the same non-empty-module requirement as `AddedUpStep`, which it applies once per token.
- Object identity: values are immutable trees, so sharing is not modelled. In the source, `addPlugin` (lines 336-339), `module.rules.push` (383), `options.entry[name].push` (588) and `options[key].alias[name] = value` (504) mutate the object already there. When one `plugins` array, rules array, entry array or alias object is shared by several configurations of an array, `options.forEach(processOptions)` (196-197) applies every configuration's writes to it, so for example a shared `plugins` array gets one HotModuleReplacementPlugin per configuration. Here each configuration gets its own copy. Likewise the shortcuts (lines 14-41) write into the caller's `argv` object; here they return new flags and the caller's value is not visible.
- SortIsStable (ExtensionOrder.SortIsStable) and SortExtensionsStable (ExtensionOrder.SortExtensionsStable): the model sorts with a stable insertion sort. The comparator returns 0 for two extensions of the same length, so their order depends on the engine. A stable `Array.prototype.sort` has been required since ECMAScript 2019. V8 before 7.0 (Node.js 10 and earlier) used an unstable quicksort for arrays longer than 10, and `Object.keys(interpret.extensions)` is longer than that. On those engines, extensions of the same length, and hence the default config file names tried, can come in another order.
- IfArg (Appliers.IfArg): its contract states only the absent case. The calling protocol is stated by `Appliers.IfArgProtocol`.
