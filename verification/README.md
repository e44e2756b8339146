# TranslationLoader in Dafny

This project models the core of TranslationLoader, a Java library.
TranslationLoader loads per-locale message bundles from the files of a directory.
It flattens each file's nested key structure into a flat key-to-text map.
It brings a bundle whose recorded version is stale up to date from a reference bundle, then saves it.
Finally it publishes every loaded bundle through a fresh translation registry.

The modules follow the Java files:

- `LocaleParser` covers `parse`, which splits a tag with `split("_", 3)`.
  It also covers `fromFileName`, a character loop that stops at the first `.`, and `Locale.toString` as `Tag`.
- `ExtensionUtil` covers `getExtension` for a file name and for a path.
- `Configurations` is the nested configuration the loaders read and write: a tree of sections, lists, scalars and nulls.
  - The tree stands in for a parsed YAML or properties file.
  - It includes how a leaf becomes text (`toString`, `Integer.toString`, a list's `toString`), the top-level `get` and `set`, and the write-back done by `save`.
- `AbstractTranslationLoader` is the bundle state, a class `Bundle` with fields `locale`, `messageMap`, `loaded`, `version` and `modified`.
  - It covers `register`, `getMessageMap`, `merge` and `setVersion`.
  - The merge rule is the function `MergeMissing`.
- `FileConfigurationLoader` and `ConfigurationLoader` are classes holding a `Bundle`: Java inheritance is modelled as composition.
  - Each has a `load` that clears and rebuilds the map with a recursive import, and a `save`.
  - Each import is specified by a recursive `Flatten` function.
- `TranslationDirectory` is a class with the registry and the loaded-locale set.
  - It covers `load`, `unload`, `getRegistry`, `createDirectoryIfNotExists`, `loadFile` and `updateAndRegister`.
  - `load` is proved against `Pass`, a function that describes the whole pass file by file.
  - Per file, `Pass` uses `Reconcile`, which describes the version check, merge and save on values.
- `Sinks` holds the registry and the global translator, as records of what they receive.
- `LoaderScenarios` holds worked cases of the loaders on small configurations, after the repository's loader test.

Inputs and external collaborators:

- The file system is an input, `Disk`. It says whether the directory exists, whether creating it fails, and whether the on-created callback fails.
- Each file is given as its name, whether it is a regular file, and its parsed tree, or `None` when reading fails.
- The message merger is a function from a locale to a `Reference`: an I/O failure, null, or a `ConfigurationLoader` over a reference tree that it has or has not loaded.
- Java `null` is `Option.None` where the source accepts null.

Choices the model makes where the sources leave room:

- `parse` never returns none for a non-empty tag: `split("_", 3)` keeps everything after the second `_` in the variant.
  See `ParseKeepsRestInVariant`.
- The staleness check is the plain inequality `!loader.getVersion().equals(version)` of `updateAndRegister`. No ordering of versions is involved.
- `FileConfigurationLoader` as written does not skip the top-level `v` key and never reads a version.
  - Its bundle therefore keeps `v` as an ordinary message and has version `""` after a load.
  - The repository's loader test expects the version `1.0.0` to be read and `v` to be left out of the map. That belongs to a different revision of the class, and the model follows the class as written.
  - `LoaderScenarios.LoadMergeSave` shows the file loader as written.
- The revision of `AbstractTranslationLoader` this model follows holds neither a version nor a modified flag and has no `merge` or `setVersion`. The revisions of `ConfigurationLoader` and `TranslationDirectory` it follows use all of them.
  - `merge` is modelled after the loader test: it adds only the missing keys, and it marks the bundle modified when it adds one.
  - That revision gives no body for `setVersion`. It is modelled as replacing the version and marking the bundle modified only when the version changes.
  - `register` takes the registry as an argument, as `TranslationDirectory` calls it. The `register()` of that revision is an older one that keeps the registry in the loader.
- The revision of `FileConfigurationLoader` this model follows has no `save`, which `TranslationDirectory` calls. It is modelled by the same rule as `ConfigurationLoader.save`: write all messages and `v`, then clear the flag, only when modified.

## Model

| member | source | states |
|---|---|---|
| LocaleParser.IndexOf | api/src/main/java/com/github/siroshun09/translationloader/api/util/LocaleParser.java:61 | the index of the first occurrence of a character, or -1 exactly when it does not occur |
| LocaleParser.Split3 | api/src/main/java/com/github/siroshun09/translationloader/api/util/LocaleParser.java:61 | `split("_", 3)` gives 1 to 3 pieces; only the last of three may contain `_`; joining the pieces with `_` gives back the input |
| LocaleParser.Parse | api/src/main/java/com/github/siroshun09/translationloader/api/util/LocaleParser.java:56-77 | none exactly for a null or empty string, so the final `return null` is unreachable |
| LocaleParser.SplitJoin | api/src/main/java/com/github/siroshun09/translationloader/api/util/LocaleParser.java:61 | splitting the `_`-join of 1 to 3 segments without `_` gives back those segments |
| LocaleParser.ParseTagRoundTrip | api/src/test/java/com/github/siroshun09/translationloader/api/test/util/LocaleParserTest.java:37-39 | parsing `Locale.toString()` gives back the locale whenever language and country hold no `_` and are not both empty |
| LocaleParser.ParseKeepsRestInVariant | api/src/main/java/com/github/siroshun09/translationloader/api/util/LocaleParser.java:72-74 | everything after the second `_` becomes the variant, whatever it contains |
| LocaleParser.Tag | api/src/test/java/com/github/siroshun09/translationloader/api/test/util/LocaleParserTest.java:37-39 | `Locale.toString()`: language, country and variant joined by `_`, with the separators Java omits; `ParseTagRoundTrip` states that `Parse` undoes it |
| LocaleParser.BaseName | api/src/main/java/com/github/siroshun09/translationloader/api/util/LocaleParser.java:34-43 | the result is a dot-free prefix of the name that ends the name or stops at a `.` |
| LocaleParser.BaseNameOfStem | api/src/main/java/com/github/siroshun09/translationloader/api/util/LocaleParser.java:37-43 | a dot-free stem followed by `.` and anything is the base name, so `en.example.yml` gives `en` |
| LocaleParser.FromFileName | api/src/main/java/com/github/siroshun09/translationloader/api/util/LocaleParser.java:23-46 | the loop builds exactly the characters before the first `.` and parses them; none for a null path or file name, and none exactly when the name is empty or starts with `.` |
| LocaleParser.EnglishFileNames | api/src/test/java/com/github/siroshun09/translationloader/api/test/util/LocaleParserTest.java:24 | `en.yml` and `en.example.yml` both give English |
| LocaleParser.JapanFileName | api/src/test/java/com/github/siroshun09/translationloader/api/test/util/LocaleParserTest.java:25 | `ja_JP.yml` gives Japanese in Japan |
| LocaleParser.DotFileName | api/src/test/java/com/github/siroshun09/translationloader/api/test/util/LocaleParserTest.java:27 | `.` gives no locale |
| ExtensionUtil.LastIndexOf | api/src/main/java/com/github/siroshun09/translationloader/api/util/ExtensionUtil.java:46 | the index of the last occurrence of a character, or -1 when it does not occur |
| ExtensionUtil.GetExtension | api/src/main/java/com/github/siroshun09/translationloader/api/util/ExtensionUtil.java:41-53 | `""` for null, empty or dot-free names; otherwise the name is some prefix, a `.` and the result; the result never contains `.` |
| ExtensionUtil.GetPathExtension | api/src/main/java/com/github/siroshun09/translationloader/api/util/ExtensionUtil.java:21-33 | `""` for a null path or a missing file name, otherwise the string overload on the file name |
| ExtensionUtil.ExtensionOfSplit | api/src/main/java/com/github/siroshun09/translationloader/api/util/ExtensionUtil.java:46-49 | for any prefix and any dot-free suffix, the extension of `prefix.suffix` is the suffix (so a trailing `.` gives `""`) |
| ExtensionUtil.ExtensionExamples | api/src/test/java/com/github/siroshun09/translationloader/api/test/util/ExtensionUtilTest.java:12-39 | `test.txt` gives `txt`, `test` and null give `""`, for both overloads |
| Configurations.NatToString | src/main/java/com/github/siroshun09/translationloader/FileConfigurationLoader.java:70 | `Integer.toString` of a non-negative number: decimal digits without leading zeros that denote the number |
| Configurations.IntToString | src/main/java/com/github/siroshun09/translationloader/FileConfigurationLoader.java:70 | `Integer.toString`: a negative number is `-` followed by the digits of its magnitude, others are `NatToString` |
| Configurations.Stringify | src/main/java/com/github/siroshun09/translationloader/FileConfigurationLoader.java:69-70 | a scalar as `toString()` gives it: a string as is, an integer in decimal (`NatToString`), a boolean as `true` or `false`, and a decimal as its given rendering; `ListRendering` shows it on examples |
| Configurations.JoinEscaped | src/main/java/com/github/siroshun09/translationloader/FileConfigurationLoader.java:59-63 | a list's elements as strings, joined by the two characters `\` and `n`; `ListRendering` shows it on an example |
| Configurations.ListText | src/main/java/com/github/siroshun09/translationloader/ConfigurationLoader.java:62-63 | `List.toString()`: the elements in brackets separated by `, `; `ListRendering` shows it on an example |
| Configurations.Lookup | src/main/java/com/github/siroshun09/translationloader/ConfigurationLoader.java:31 | a top-level `get(key)`: the last entry with that key, if any; `Put` and `SavedVersionReadsBack` state how it reads back a `set` |
| Configurations.VersionOf | src/main/java/com/github/siroshun09/translationloader/ConfigurationLoader.java:31 | `getString("v")`: the top-level `v` as a string, `""` when it is absent or not a scalar; `SavedVersionReadsBack` states that it reads back a saved version |
| Configurations.Put | src/main/java/com/github/siroshun09/translationloader/ConfigurationLoader.java:39-40 | after `set(key, value)`, `get(key)` gives the value and every other key reads as before |
| Configurations.WriteBack | src/main/java/com/github/siroshun09/translationloader/ConfigurationLoader.java:39-40 | whatever order the map is walked in, every message except `v` is at its key, `v` holds the version, and all other keys are untouched |
| Configurations.SavedVersionReadsBack | src/main/java/com/github/siroshun09/translationloader/ConfigurationLoader.java:31 | after a save, `VersionOf` (the `getString("v")` that `load` uses) reads back exactly the saved version |
| AbstractTranslationLoader.MergeMissing | src/test/java/com/github/siroshun09/translationloader/test/TranslationLoaderTest.java:42-50 | the merged keys are the union; the target's texts win; missing keys take the source's text |
| AbstractTranslationLoader.MergeMissingIdempotent | src/test/java/com/github/siroshun09/translationloader/test/TranslationLoaderTest.java:82-86 | merging the same source a second time changes nothing |
| AbstractTranslationLoader.MergeMissingUnchangedIff | src/test/java/com/github/siroshun09/translationloader/test/TranslationLoaderTest.java:82-86 | a merge leaves the target unchanged exactly when the source has no key the target lacks |
| AbstractTranslationLoader.Bundle.constructor | src/main/java/com/github/siroshun09/translationloader/AbstractTranslationLoader.java:35-40 | a new bundle has its locale, no messages, is not loaded, has no version and is not modified |
| AbstractTranslationLoader.Bundle.SetLoaded | src/main/java/com/github/siroshun09/translationloader/AbstractTranslationLoader.java:52-54 | sets the loaded flag and nothing else |
| AbstractTranslationLoader.Bundle.SetLoadedVersion | src/main/java/com/github/siroshun09/translationloader/ConfigurationLoader.java:31 | records the loaded version without marking the bundle modified |
| AbstractTranslationLoader.Bundle.GetMessageMap | src/main/java/com/github/siroshun09/translationloader/AbstractTranslationLoader.java:93-95 | the returned view has exactly the internal map's contents |
| AbstractTranslationLoader.Bundle.Register | src/main/java/com/github/siroshun09/translationloader/AbstractTranslationLoader.java:57-75 | not loaded: returns false and registers nothing; loaded: returns true and registers the whole map under the locale |
| AbstractTranslationLoader.Bundle.Merge | src/test/java/com/github/siroshun09/translationloader/test/TranslationLoaderTest.java:82-86 | fails and changes nothing when the other bundle is not loaded; otherwise the map becomes the merge, `modified` is set exactly when a key was added, and the other bundle is left unchanged |
| AbstractTranslationLoader.Bundle.SetVersion | src/main/java/com/github/siroshun09/translationloader/directory/TranslationDirectory.java:209 | the version becomes the argument; the bundle becomes modified exactly when the version changed |
| FileConfigurationLoader.FlattenKeys | src/main/java/com/github/siroshun09/translationloader/FileConfigurationLoader.java:46-75 | the keys the import adds are exactly the dotted paths of list and scalar leaves: never a section's own key, never a null leaf |
| FileConfigurationLoader.Flatten | src/main/java/com/github/siroshun09/translationloader/FileConfigurationLoader.java:46-75 | the import on values: a section recurses under `prefix + key + "."`, a list is stored joined, another non-null value as its string, null adds nothing, a later key overwrites; `FlattenKeys` and `ImportMessages` state its properties |
| FileConfigurationLoader.FileConfigurationLoader.constructor | src/main/java/com/github/siroshun09/translationloader/FileConfigurationLoader.java:27-31 | a new, empty, not loaded bundle for the locale |
| FileConfigurationLoader.FileConfigurationLoader.Load | src/main/java/com/github/siroshun09/translationloader/FileConfigurationLoader.java:34-44 | a failed read leaves the bundle not loaded and empty; a successful one leaves it loaded with the map flattened from the file alone, so loading twice gives the same map |
| FileConfigurationLoader.FileConfigurationLoader.ImportMessages | src/main/java/com/github/siroshun09/translationloader/FileConfigurationLoader.java:46-75 | the key loop with its recursion adds exactly `Flatten` of the section: sections recurse under `prefix + key + "."`, lists are joined with a literal backslash-n, null leaves are skipped |
| FileConfigurationLoader.FileConfigurationLoader.Save | src/main/java/com/github/siroshun09/translationloader/ConfigurationLoader.java:37-43 | unmodified: nothing changes; modified: the configuration holds every message and the version, and the flag is cleared, so a second save is a no-op |
| ConfigurationLoader.FlattenAddsNoVersionKey | src/main/java/com/github/siroshun09/translationloader/ConfigurationLoader.java:47-49 | every key the import adds starts with the prefix and is never the top-level `v` |
| ConfigurationLoader.Flatten | src/main/java/com/github/siroshun09/translationloader/ConfigurationLoader.java:45-68 | the import on values, skipping the top-level `v` and storing a list through `toString()`; `FlattenAddsNoVersionKey` and `ImportMessages` state its properties |
| ConfigurationLoader.MessagesNeverHoldVersionKey | src/main/java/com/github/siroshun09/translationloader/ConfigurationLoader.java:45-68 | a loaded map never holds `v`, whatever the source holds |
| ConfigurationLoader.ConfigurationLoader.constructor | src/main/java/com/github/siroshun09/translationloader/ConfigurationLoader.java:19-22 | a new, empty, not loaded bundle over the given source |
| ConfigurationLoader.ConfigurationLoader.Load | src/main/java/com/github/siroshun09/translationloader/ConfigurationLoader.java:25-34 | the bundle is loaded, its map is the flattened source, and its version is the source's top-level `v` |
| ConfigurationLoader.ConfigurationLoader.ImportMessages | src/main/java/com/github/siroshun09/translationloader/ConfigurationLoader.java:45-68 | the key loop with its recursion adds exactly `Flatten` of the section, skipping `v` only at the top level and storing lists through `toString()` |
| ConfigurationLoader.ConfigurationLoader.Save | src/main/java/com/github/siroshun09/translationloader/ConfigurationLoader.java:37-43 | unmodified: the source is untouched; modified: every message and `v` = version are written and the flag is cleared |
| LoaderScenarios.ListRendering | src/main/java/com/github/siroshun09/translationloader/FileConfigurationLoader.java:59-66 | the list `[a, 2, false]` becomes `a\n2\nfalse` in a file bundle and `[a, 2, false]` in an in-memory one |
| LoaderScenarios.NestedVersionKeyIsAMessage | src/main/java/com/github/siroshun09/translationloader/ConfigurationLoader.java:47-49 | a nested `v` is kept as `sub.v` while the top-level `v` is dropped |
| LoaderScenarios.OriginalMessages | src/test/java/com/github/siroshun09/translationloader/test/TranslationLoaderTest.java:31-40 | the English file, reconstructed from the map and version the test expects of it (the file itself is not part of this model), flattens to its five expected messages plus `v`, which the file loader as written keeps |
| LoaderScenarios.OtherMessages | src/test/java/com/github/siroshun09/translationloader/test/TranslationLoaderTest.java:42-48 | the test's reference configuration flattens to `missing-message` and `example.missing` |
| LoaderScenarios.MergedMessages | src/test/java/com/github/siroshun09/translationloader/test/TranslationLoaderTest.java:44-50 | the merge adds exactly the two missing messages, and the reference has a key the English bundle lacks |
| LoaderScenarios.LoadMergeSave | src/test/java/com/github/siroshun09/translationloader/test/TranslationLoaderTest.java:58-91 | load, merge and save: both bundles loaded, the English bundle gains the two messages, the reference stays unmodified, and the save clears the flag |
| TranslationDirectory.Reconcile | src/main/java/com/github/siroshun09/translationloader/directory/TranslationDirectory.java:196-217 | a bundle that is not stale is published unchanged and not saved; the pass aborts, with the merger failure for the locale, exactly when the bundle is stale and the merger fails; a published bundle keeps all its own messages; a save writes the published messages under the locale |
| TranslationDirectory.Stale | src/main/java/com/github/siroshun09/translationloader/directory/TranslationDirectory.java:197-198 | the staleness test: a merger and a non-empty version are set, and the bundle's version differs; `ReconcileStale` and `VisitWithoutMerger` state its consequences |
| TranslationDirectory.ReconcileStale | src/main/java/com/github/siroshun09/translationloader/directory/TranslationDirectory.java:200-213 | a stale bundle with a null or not-loaded reference is published unchanged and not saved; with a loaded reference it is published as `MergeMissing` of its messages and the reference's, and saved under the reference's version exactly when it was already modified, the merge added a message, or the version changed |
| TranslationDirectory.Recognise | src/main/java/com/github/siroshun09/translationloader/directory/TranslationDirectory.java:166-185 | the locale under which `loadFile` loads a path: the file name parses and the extension is `yml`, `yaml` or `properties`; `RecogniseStemAndExtension` states it for every `stem.extension` |
| TranslationDirectory.Visit | src/main/java/com/github/siroshun09/translationloader/directory/TranslationDirectory.java:106-110 | one file: after an error nothing changes; a non-regular or unrecognised file is skipped without error; on success one registration and the file's locale are added exactly for a recognised regular file; a failure keeps the log, the locales and the saves |
| TranslationDirectory.VisitRegisters | src/main/java/com/github/siroshun09/translationloader/directory/TranslationDirectory.java:196-221 | a recognised file that does not end the pass was readable, and adds exactly one registration at the end of the log: its locale with its flattened messages as reconciled |
| TranslationDirectory.Pass | src/main/java/com/github/siroshun09/translationloader/directory/TranslationDirectory.java:105-110 | the file loop of `load` over the listing in order; `ErrorPersists`, `UnreadableFileAborts`, `PassLocales`, `PassLogLength` and `PassLogWithoutMerger` state its properties |
| TranslationDirectory.ErrorPersists | src/main/java/com/github/siroshun09/translationloader/directory/TranslationDirectory.java:105-111 | once the pass has failed, later files change nothing |
| TranslationDirectory.UnreadableFileAborts | src/main/java/com/github/siroshun09/translationloader/directory/TranslationDirectory.java:187-191 | a load failure on a recognised file makes the whole pass fail |
| TranslationDirectory.PassLocales | src/main/java/com/github/siroshun09/translationloader/directory/TranslationDirectory.java:105-110 | after a successful pass the loaded locales are exactly the locales of the recognised regular files |
| TranslationDirectory.PassLogLength | src/main/java/com/github/siroshun09/translationloader/directory/TranslationDirectory.java:106-110 | a pass never registers more bundles than there are files; a successful one registers one per recognised regular file |
| TranslationDirectory.PassLogWithoutMerger | src/main/java/com/github/siroshun09/translationloader/directory/TranslationDirectory.java:105-110 | without a merger, a successful pass registers, in directory order, each recognised readable file's locale with exactly the messages flattened from its file |
| TranslationDirectory.RecogniseStemAndExtension | src/main/java/com/github/siroshun09/translationloader/directory/TranslationDirectory.java:166-185 | a file named `stem.extension` (no dot in either part) is loaded under the locale its stem parses to exactly when the extension is `yml`, `yaml` or `properties`, and is skipped otherwise |
| TranslationDirectory.RecogniseEnglishYaml | src/main/java/com/github/siroshun09/translationloader/directory/TranslationDirectory.java:166-177 | `en.yml` is loaded as English |
| TranslationDirectory.RecogniseJapaneseProperties | src/main/java/com/github/siroshun09/translationloader/directory/TranslationDirectory.java:166-181 | `ja.properties` is loaded as Japanese |
| TranslationDirectory.RecogniseSkipsText | src/main/java/com/github/siroshun09/translationloader/directory/TranslationDirectory.java:175-185 | `notes.txt` is skipped although its name parses as a locale |
| TranslationDirectory.VisitWithoutMerger | src/main/java/com/github/siroshun09/translationloader/directory/TranslationDirectory.java:196-198 | without a message merger no bundle is stale, so a file that can be read never ends the pass |
| TranslationDirectory.ThreeFileExample | src/main/java/com/github/siroshun09/translationloader/directory/TranslationDirectory.java:105-111 | a directory of `en.yml`, `ja.properties` and `notes.txt` without a merger loads exactly English and Japanese |
| TranslationDirectory.TranslationDirectory.constructor | src/main/java/com/github/siroshun09/translationloader/directory/TranslationDirectory.java:77-85 | no registry and no loaded locales |
| TranslationDirectory.TranslationDirectory.Unload | src/main/java/com/github/siroshun09/translationloader/directory/TranslationDirectory.java:119-123 | the registry is withdrawn from the translator, the loaded locales are empty and the registry is absent |
| TranslationDirectory.TranslationDirectory.GetRegistry | src/main/java/com/github/siroshun09/translationloader/directory/TranslationDirectory.java:139-145 | fails exactly when there is no registry, otherwise gives it |
| TranslationDirectory.TranslationDirectory.Load | src/main/java/com/github/siroshun09/translationloader/directory/TranslationDirectory.java:96-114 | unloads first, uses a fresh registry, and fails on a directory failure; otherwise its error, registrations, loaded locales and saves are those of `Pass`; only a successful load adds the registry to the translator |
| TranslationDirectory.TranslationDirectory.CreateDirectoryIfNotExists | src/main/java/com/github/siroshun09/translationloader/directory/TranslationDirectory.java:156-164 | an existing directory does nothing; the callback runs only after the missing directory was created; either failure ends the load |
| TranslationDirectory.TranslationDirectory.LoadEntry | src/main/java/com/github/siroshun09/translationloader/directory/TranslationDirectory.java:106-110 | one stream element (regular-file filter, `loadFile`, non-null and loaded filters, `updateAndRegister`) does what `Visit` describes |
| TranslationDirectory.TranslationDirectory.LoadFile | src/main/java/com/github/siroshun09/translationloader/directory/TranslationDirectory.java:166-194 | no loader for an unparsable name or an extension other than `yml`, `yaml`, `properties`; a read failure ends the pass; otherwise a fresh loaded, unmodified, version-less bundle with the flattened file |
| TranslationDirectory.TranslationDirectory.UpdateAndRegister | src/main/java/com/github/siroshun09/translationloader/directory/TranslationDirectory.java:196-221 | follows `Reconcile`: aborts with nothing registered and no locale recorded when the merger fails; otherwise the bundle's map is the published one, it is registered (when loaded) and its locale recorded; when the step saves, the file's configuration holds every published message and the new version, the bundle takes the reference's version and is no longer modified; when it does not save, the configuration, version and modified flag are as before |
| TranslationDirectory.MergeAndSave | src/main/java/com/github/siroshun09/translationloader/directory/TranslationDirectory.java:207-215 | merging a loaded reference makes the map `MergeMissing` of the two and the version the reference's; the save writes every message and the version exactly when the bundle was modified, the merge added a message, or the version changed, and leaves the configuration untouched otherwise; afterwards the bundle is not modified |

## Left out

- Parsing and printing YAML and properties text, and reading and writing the file on disk. A configuration is the parsed tree, and a read is its outcome.
- `Configuration.set` and `get` with dotted paths are modelled on the top level only. The library's splitting of a dotted key into nested sections is not modelled.
- Listing the directory failing, and the directory stream's resource handling: the listing is the sequence `Disk.files`.
- `MessageFormat` construction in `register`: the registry receives the plain texts. `new MessageFormat(text)` throws `IllegalArgumentException` for a text that is not a valid pattern, such as `{player}` or an unmatched `{`. That exception escapes `updateAndRegister` and ends the directory pass. The model's pass never fails there, so for a directory holding such a text `PassLocales`, `PassLogLength` and `PassLogWithoutMerger` describe a pass that the program would abort.
- The registry's and translator's own behaviour: they are records of what they receive.
- `java.util.Locale` case normalisation of the language and country.
- The builders `TranslationDirectoryBuilder` and `TranslationLoaderBuilder`, the interfaces `TranslationLoader`, `MessageMerger`, `TranslationLoaderCreator` and `PathConsumer`, and the getters `getDirectory`, `getLoadedLocales`, `getFilePath` and `getLocale`. The builders and interfaces hold no logic, and each getter is a field read.
- `FileConfigurationLoader.FileConfigurationLoader.Save`: a save failure, which `updateAndRegister` escalates as fatal, is not modelled; the model's save always succeeds.
- `TranslationDirectory.TranslationDirectory.Unload`: a direct `unload` with no registry passes null to the translator's `removeSource`; the model treats that call as doing nothing.
- `AbstractTranslationLoader.Bundle.Merge`: the revision of `AbstractTranslationLoader` this model follows gives no body for `merge`. A merge with a bundle that is not loaded is modelled as returning false and changing nothing; an implementation that throws instead is not modelled. `updateAndRegister` only merges a loaded bundle, so the pass does not depend on this choice.
- The registry supplier: `load` takes `registrySupplier.get()`, which the caller provides and which may hand back a registry already in use. The model always starts from a fresh, empty registry, so the registrations `Load` promises are those of the pass alone.
- The message merger's loader is always a `ConfigurationLoader` over the reference tree. `MessageMerger.createLoader` may return any `TranslationLoader`, for example a file loader, which as written keeps `v` among its messages. The model's reference maps never hold `v`.
- Null list elements: a list is a sequence of non-null scalars. A null element makes the file loader's join throw a `NullPointerException`, which would end the directory pass; that failure is not modelled.
- `AbstractTranslationLoader.Bundle.GetMessageMap` returns a snapshot of the map. The Java method returns a live, unmodifiable view that later changes to the bundle show through.
- The null checks of constructors and setters: the model's types are non-null.
- Concurrency: the Java objects are not synchronised, and the model is sequential.
