# vue-i18n-simple core, modelled in Dafny

vue-i18n-simple is a VS Code extension for Vue projects that use vue-i18n. The model covers its core:

- **`I18nItem`**: one locale directory. It lists the locale files or locale folders (`lngs`) and decides whether the layout is "a file per locale" or "a folder per locale". It resolves a dotted key to one record per locale (`getFileI18n`, `getI18n`), and falls back to a common locale directory when every text is falsy. It reads files through a process-wide cache that a file watcher keeps up to date (`readFile`, `updateFile`).
- **Writing keys**: `writeI18n` rewrites the locale sources with `dataStringify`, which is a regex replace over `key: "value"` pairs. It edits a matching pair, deletes it, or inserts a new pair before a randomly drawn pair. `removeI18n` deletes a key.
- **Translation**: `transByApi` tries google, baidu and youdao in turn. `transI18n` translates the source-locale text into every other locale. `overrideCheck` looks for a value that a new key would overwrite, first at the key itself and then at each shorter dotted prefix.
- **The two commands**: "extract", which turns selected text into a key (`toCamelCase`, `onExtract`), and "find", which looks a selected text up among the source-locale values (`findValue`, `onFindI18n`).
- **The editor code actions** that launch the commands (`keyReplace`, `getCommands`), and the helpers `normalizeLng` and `camelToKabeb`.

Module by module:

- `Values` holds the JavaScript values the locale files load to, with lodash `get`, `set` and `isEmpty` over them.
- `Strings` holds the string operations the regexes stand for.
- `Cache` is the file cache: a `class` whose `files` map the methods update.
- `Locales`, `Resolve`, `Collision`, `Translate`, `Rewriter` and `Persist` follow `I18nItem`.
- `Find`, `Extract` and `Editor` follow the command and editor files.

The loops that update state step by step are `method`s with a `while` loop:

- the `map` of `getFileI18n`;
- the `while` of `overrideCheck`;
- the `for … of` of `transByApi`;
- the replace callback of `dataStringify`;
- the `map` of `writeI18n`;
- the `forEach` of `removeI18n`;
- the `for … of` of `findValue`;
- the label `map` of `onFindI18n`.

Each is proved against a function that states its result. The pure `map`, `filter` and `find` calls are recursive functions, and so are the single-expression regex replaces. The `map` of `transI18n`, the `lngs` listing, `normalizeLng`, `emptyTrans`, `toCamelCase`, `camelToKabeb` and `keyReplace` are among these. The properties are proved as lemmas about those functions.

I/O enters as parameters, so every operation is a function of what it reads:

- `env.isFile` stands for `fs.lstatSync(…).isFile()`.
- `env.load` stands for `load` (ts-node evaluating a locale file).
- `fs.tokenize` cuts file text into regex matches and the text between them.
- `disk` holds the file contents `readFileSync` would return.
- `fs.writeFails` says whether `fs.writeFile` reports an error.
- `api` stands for the translation services.
- `ui.ask` and `ui.confirm` are the input box and the modal question.
- `w.draw` supplies the successive `Math.random()` draws.

## Model

| member | source | states |
|---|---|---|
| Utils.NormalizeLng | src/core/utils/index.ts:4-21 | The result is undefined exactly when no entry matches, or when the first matching entry is the plain name `""`, which `find` returns as a falsy value. Otherwise it is the canonical name of the first matching entry: a case-insensitive match for a plain name, a membership test for an alias list. |
| Utils.NormalizeLngFound | src/core/utils/index.ts:4-21 | When the first matching entry is not the plain name `""`, the result is that entry's canonical name. |
| Utils.CamelToKebab | src/core/utils/index.ts:22-24 | The result is one character longer for each upper-case letter, contains no upper-case letter, and leaves a string without capitals unchanged. |
| Extract.ToCamelCase | src/core/commands/extract.ts:9-13 | The result is never longer than the input: each replacement turns two characters into one. |
| Extract.CamelWithoutDash | src/core/commands/extract.ts:9-13 | Text without a `-` comes back unchanged. |
| Extract.CamelFirstDash | src/core/commands/extract.ts:9-13 | A `-` followed by a word character becomes that character in upper case. The text before the first `-` is kept, and the rest is converted the same way. |
| Extract.KebabRoundTrip | src/core/commands/extract.ts:9-13 | For a name without `-`, `toCamelCase(camelToKabeb(s)) == s`: the two spellings are inverse. |
| Locales.ParsedName | src/core/i18nFile/I18nItem.ts:127 | `path.parse(pathname).name` is the entry name without its extension: name and extension rejoin to the entry name, and a name without a dot is kept whole. |
| Locales.ParsedExt | src/core/i18nFile/I18nItem.ts:93 | `path.parse(filepath).ext` is a suffix of the path. It is empty, or a dot followed by text with no further dot and no `/`. |
| Locales.LngsExactly | src/core/i18nFile/I18nItem.ts:119-148 | A locale is in `lngs` exactly when some listing entry's name (folder name, or file name without extension) normalises to a non-empty name. That locale carries the normalised name. |
| Locales.LngsBound | src/core/i18nFile/I18nItem.ts:119-148 | `lngs` has no more entries than the listing, and each entry's `lng` is the non-empty normalisation of its `originLng`. |
| Locales.StructureTypeOf | src/core/i18nFile/I18nItem.ts:64-67 | The layout is `DIR` exactly when some locale entry is a directory. |
| Locales.NewI18nItem | src/core/i18nFile/I18nItem.ts:52-62 | A new item keeps its locale path and the `.js` extension. Its layout is `DIR` exactly when the listing has a directory whose name is a recognised locale. |
| Locales.DirectoryEntryKept | src/core/i18nFile/I18nItem.ts:64-67 | The layout of the filtered `lngs` is `DIR` exactly when the raw listing has a recognised directory. |
| Cache.ReadUncached | src/core/i18nFile/I18nItem.ts:191-204 | An uncached read returns something `typeof` calls an object. A successful load is stored in the cache under that path. No other cache entry changes. |
| Cache.ReadOf | src/core/i18nFile/I18nItem.ts:186-205 | `readFile` returns the value it shares with the cache when it says so. It changes no cache entry but the one read. |
| Cache.FileCache.ReadFile | src/core/i18nFile/I18nItem.ts:186-205 | The value returned and the new cache are exactly those of `ReadOf` on the old cache. |
| Cache.FileCache.UpdateFile | src/core/i18nFile/I18nItem.ts:90-113 | The watcher's update leaves the cache as `Updated` describes. |
| Cache.FileCache.constructor | src/core/i18nFile/I18nItem.ts:46 | The cache starts empty. |
| Cache.ReadReturnsObject | src/core/i18nFile/I18nItem.ts:188-189 | This is the only case where `readFile` returns a non-object: a cached read of a truthy non-object entry, returned unchanged. |
| Cache.CacheHit | src/core/i18nFile/I18nItem.ts:186-205 | After an uncached read loads an object, a cached read returns that same shared object without loading again, whatever `load` would now return. |
| Cache.FailedLoadKeepsCache | src/core/i18nFile/I18nItem.ts:200-204 | A failed load returns `{}` and leaves the cache as it was. |
| Cache.ReadOnlyLoads | src/core/i18nFile/I18nItem.ts:186-205 | A read keeps every cache entry, and any entry it adds or changes holds what `load` returns for that path. |
| Cache.UpdatedEntry | src/core/i18nFile/I18nItem.ts:90-113 | Events on files that are not `.json`, `.yml` or `.js` change nothing. `del` removes the entry. `change` and `create` store the coerced read (`{}` when loading fails). No other path changes. |
| Resolve.FileI18n | src/core/i18nFile/I18nItem.ts:339-386 | `getFileI18n` yields one record per locale. |
| Resolve.RecordFor | src/core/i18nFile/I18nItem.ts:340-385 | One step of the `map` callback yields the record and the cache that `RecordOf` describes. |
| Resolve.GetFileI18n | src/core/i18nFile/I18nItem.ts:339-386 | The records returned and the final cache are those of `FileI18n` on the old cache. |
| Resolve.EmptyTrans | src/core/i18nFile/I18nItem.ts:48-50 | `emptyTrans` holds exactly when every record's text is falsy. |
| Resolve.I18nOfOnlyLoads | src/core/i18nFile/I18nItem.ts:327-386 | A `getI18n` lookup, common fallback included, keeps every cache entry, and any entry it adds or changes holds what `load` returns for that path. |
| Resolve.GetI18n | src/core/i18nFile/I18nItem.ts:327-337 | The records returned and the final cache are those of `I18nOf` on the old cache. |
| Resolve.LocateFileLayout | src/core/i18nFile/I18nItem.ts:341-344 | In the file-per-locale layout the locale file is read, bypassing the cache, with the whole key as keypath. |
| Resolve.LocateDirKey | src/core/i18nFile/I18nItem.ts:346-358 | In the folder layout the first dotted segment names the file, and `key` is `filename.keypath`, or just `filename` with an empty keypath. The fallback name is the kebab-case form of that segment. |
| Resolve.LocateDirFind | src/core/i18nFile/I18nItem.ts:351-353 | In the folder layout, FIND reads `index.js` of the locale folder, bypassing the cache. |
| Resolve.LocateDirOther | src/core/i18nFile/I18nItem.ts:354-357 | In the folder layout, other modes read `filename\filename.js`, or the locale folder itself for an empty first segment, through the cache. |
| Resolve.RecordOfFollows | src/core/i18nFile/I18nItem.ts:377-384 | A record copies its locale's fields and carries the key and the located keypath. |
| Resolve.RecordsFollowLngs | src/core/i18nFile/I18nItem.ts:339-386 | The i-th record describes the i-th locale, with the key and that locale's keypath. |
| Resolve.KebabFallbackOnlyOnRead | src/core/i18nFile/I18nItem.ts:370-376 | Outside READ mode, or with the kebab-case option off, the record's file is the located one. |
| Resolve.TextOfMissingFile | src/core/i18nFile/I18nItem.ts:363-383 | When the located path is not a file, nothing is read. The text is `{}` for an empty keypath and `undefined` otherwise. |
| Resolve.FindIgnoresCache | src/core/i18nFile/I18nItem.ts:351-353 | In FIND mode the text comes from a fresh load of `index.js`, whatever the cache holds. |
| Resolve.CommonFallback | src/core/i18nFile/I18nItem.ts:327-337 | The common directory is consulted only in READ mode, and only when every own text is falsy. Without own locales, READ resolves through the common directory. |
| Resolve.FindFirst | src/core/i18nFile/I18nItem.ts:404 | `Array.find` returns the first element meeting the test, and nothing exactly when none does. |
| Resolve.ParseFilepathChoice | src/core/i18nFile/I18nItem.ts:388-412 | `parseFilepath` returns `''` when the glob throws. Otherwise it returns the default path, the folder path, or one of the matches. With several matches in FIND mode it returns the default path. |
| Resolve.ParseFilepathPrefersFilename | src/core/i18nFile/I18nItem.ts:401-405 | With several matches outside FIND, it picks the first match whose path contains `filename.js`. |
| Collision.LookUp | src/core/i18nFile/I18nItem.ts:252-264 | One `getI18n` lookup on the cache object yields the first record's text and the cache `CheckLookup` describes. |
| Collision.ScanPrefixes | src/core/i18nFile/I18nItem.ts:257-277 | The `while` loop over shorter prefixes returns what `ScanFrom` states, each lookup made on the cache the previous one left, and leaves the cache `ScanFrom` describes. |
| Collision.OverrideCheck | src/core/i18nFile/I18nItem.ts:251-291 | `overrideCheck` throws when a lookup finds no record. It resolves true without asking when there is no conflict. Otherwise it resolves to the user's answer about the conflicting key and value. The cache is the one its lookups left. |
| Collision.ScanFindsLongest | src/core/i18nFile/I18nItem.ts:260-277 | A reported prefix conflict is the longest prefix whose value is not an object, `undefined` or the string "undefined". Every longer prefix was looked up, in turn, on the cache the lookups before it left, and skipped. |
| Collision.ScanNone | src/core/i18nFile/I18nItem.ts:260-277 | The scan finds nothing exactly when every shorter prefix exists and does not block, each looked up on the cache the longer lookups left. |
| Collision.WholeKeyFirst | src/core/i18nFile/I18nItem.ts:252-256 | A truthy value at the non-empty key itself is the conflict. No prefix is consulted, and the cache is the one that first lookup left. |
| Collision.NoConflictNoPrompt | src/core/i18nFile/I18nItem.ts:280-290 | Without a conflict (or with one at the empty prefix) the answer is true and independent of the prompt. Otherwise it is the prompt's answer about exactly that key and text. Either way the cache is the one the lookups left. |
| Collision.LookUpOnlyLoads | src/core/i18nFile/I18nItem.ts:252-264 | One lookup keeps every cache entry, and any entry it adds or changes is a loaded module. |
| Collision.ScanOnlyLoads | src/core/i18nFile/I18nItem.ts:257-277 | The prefix scan keeps every cache entry, and any entry it adds or changes is a loaded module. |
| Collision.CheckOnlyLoads | src/core/i18nFile/I18nItem.ts:251-291 | However `overrideCheck` ends, thrown or resolved, it keeps every cache entry, and any entry it adds or changes is a loaded module. |
| Collision.PrefixesOfKey | src/core/i18nFile/I18nItem.ts:257-263 | For `a.b.c` the prefixes tried are `a.b`, `a` and the empty prefix. |
| Translate.FirstAnswering | src/core/i18nFile/I18nItem.ts:236-243 | The index of the first plan that does not throw; every earlier plan threw. |
| Translate.ErrorsOf | src/core/i18nFile/I18nItem.ts:233-242 | The collected errors are exactly those of the plans that threw, in order. |
| Translate.TransByApi | src/core/i18nFile/I18nItem.ts:223-249 | The `for … of` loop over the plans returns what `TransByApiSpec` states. |
| Translate.FirstAnsweringUnique | src/core/i18nFile/I18nItem.ts:236-243 | The loop stops at exactly the first plan that returns. |
| Translate.FirstAnswerDecides | src/core/i18nFile/I18nItem.ts:236-248 | The outcome depends only on the plans up to the first that returns; later plans are never consulted. |
| Translate.ThrowsErrors | src/core/i18nFile/I18nItem.ts:245-248 | It throws exactly when every plan threw or the first answer has no non-empty first result. The thrown array lists the errors in plan order. A returned translation is non-empty. |
| Translate.MainIndex | src/core/i18nFile/I18nItem.ts:294 | `find` by `lng`: the first record in the source locale, and none exactly when no record is in it. |
| Translate.TransFromOk | src/core/i18nFile/I18nItem.ts:296-311 | When the batch resolves, each output record is its input with only the text changed. The main record is unchanged, and every other record carries its translation. |
| Translate.TaskFailureFailsBatch | src/core/i18nFile/I18nItem.ts:311 | One failing task rejects the whole `Promise.all`. |
| Translate.BatchFailureHasTask | src/core/i18nFile/I18nItem.ts:311 | A rejected batch has a failing task. |
| Translate.TransFromErr | src/core/i18nFile/I18nItem.ts:296-311 | The batch rejects exactly when some task fails. |
| Translate.NoSourceRecordFails | src/core/i18nFile/I18nItem.ts:294-306 | Without a source-locale record, reading `mainTrans.text` throws, so `transI18n` rejects exactly when there is any record at all. |
| Translate.TransI18nFails | src/core/i18nFile/I18nItem.ts:293-312 | With a source record, `transI18n` rejects exactly when translating its text into some other record's locale throws. |
| Translate.TransFromAll | src/core/i18nFile/I18nItem.ts:296-311 | A resolved batch keeps the main record and gives each other record its translation. |
| Translate.TransI18nResult | src/core/i18nFile/I18nItem.ts:293-312 | When `transI18n` resolves, the source record is unchanged. Every other record is its input with the text replaced by the translation of the source text into its locale. |
| Rewriter.RandomStart | src/core/i18nFile/I18nItem.ts:168 | `Math.floor(Math.random() * n)` lies in `[0, n)` when there are pairs. |
| Rewriter.DataStringify | src/core/i18nFile/I18nItem.ts:163-184 | The replace loop over the chunks yields what `DataStringifySpec` states. It throws exactly when the file text has no `key: "value"` pair. |
| Rewriter.Edited | src/core/i18nFile/I18nItem.ts:171-173 | Editing is pointwise: each pair with the key gets the new value, and every other chunk is kept. |
| Rewriter.NthOtherPair | src/core/i18nFile/I18nItem.ts:174-179 | The index of the r-th pair whose key differs from the keypath. |
| Rewriter.NoQuoteBeforeValue | src/core/i18nFile/I18nItem.ts:166 | No quote appears before the quoted value in a match, so replacing `p2` hits the value. |
| Rewriter.EditPairText | src/core/i18nFile/I18nItem.ts:173 | `match.replace(p2, "text")` replaces exactly the pair's value. |
| Rewriter.WordNotInSpace | src/core/i18nFile/I18nItem.ts:166 | A key character never occurs in the surrounding whitespace. |
| Rewriter.RenameKeyText | src/core/i18nFile/I18nItem.ts:176 | `match.replace(p1, keypath)` renames exactly the pair's key. |
| Rewriter.RequoteValueText | src/core/i18nFile/I18nItem.ts:176 | The following `.replace(p2, …)` then replaces exactly the value. |
| Rewriter.AddPairText | src/core/i18nFile/I18nItem.ts:176 | The inserted text is a well-formed new pair: same spacing, the new key and value, and a comma added when the anchor had none. |
| Rewriter.DeleteRemovesPairs | src/core/i18nFile/I18nItem.ts:171-173 | Deleting removes exactly the pairs with the key and keeps all other text. |
| Rewriter.EditReplacesValues | src/core/i18nFile/I18nItem.ts:171-173 | Outside ADD mode, writing replaces the value of each pair with the key and changes nothing else. |
| Rewriter.AddedAtHead | src/core/i18nFile/I18nItem.ts:174-178 | When the countdown hits the first pair, the new pair goes right before it. |
| Rewriter.AddInsertsOnce | src/core/i18nFile/I18nItem.ts:169-182 | For a keypath without `"`, in ADD mode the file becomes: every pair with the key edited, plus one new pair before the pair the countdown stops at (a pair with another key). |
| Rewriter.EditedCounts | src/core/i18nFile/I18nItem.ts:171-173 | Editing keeps the number of pairs and of pairs with the key. |
| Rewriter.EditWithoutMatch | src/core/i18nFile/I18nItem.ts:171 | Without a pair with the key, editing changes nothing. |
| Rewriter.PairsSplit | src/core/i18nFile/I18nItem.ts:167 | The pair count is the count of pairs with the key plus the count of pairs without it. |
| Rewriter.AddedCounts | src/core/i18nFile/I18nItem.ts:174-178 | ADD inserts exactly one pair when the countdown reaches a pair with another key, and none otherwise. When it inserts, the number of pairs with the key also grows by one, so a key already present can end up duplicated. |
| Rewriter.DeletedCounts | src/core/i18nFile/I18nItem.ts:173 | After deleting, no pair has the key, all other pairs remain, and a file without the key is unchanged. |
| Rewriter.NoPairsThrows | src/core/i18nFile/I18nItem.ts:167 | A file text without any pair makes `dataStringify` throw. |
| Rewriter.AddNewKey | src/core/i18nFile/I18nItem.ts:163-184 | For a keypath without `"`, adding a key the file lacks inserts exactly one new pair, before the randomly drawn pair, and leaves the rest of the text as it was. |
| Persist.WriteFrom | src/core/i18nFile/I18nItem.ts:414-431 | `writeI18n` issues one write, one `in` probe and one mode per record. The probe is skipped while the mode is ADD, because `&&` stops at `mode !== MatchMode.ADD`. |
| Persist.WriteOne | src/core/i18nFile/I18nItem.ts:416-427 | One write's outcome, probe, mode and cache are those of `WriteStep`. |
| Persist.WriteI18n | src/core/i18nFile/I18nItem.ts:414-431 | The outcomes and the final cache are those of `WriteFrom` on the old cache. The returned promise resolves exactly when every write succeeds. |
| Persist.AllResolve | src/core/i18nFile/I18nItem.ts:430 | `Promise.all` resolves exactly when every write resolved. |
| Persist.ModeTurnsAdd | src/core/i18nFile/I18nItem.ts:418 | The mode is ADD from the first record whose keypath fails the `in` probe onward, or from the start when the call asked for ADD. Before that it is the requested mode. |
| Persist.WriteThroughCache | src/core/i18nFile/I18nItem.ts:417-419 | For a cached object, the probe is skipped in ADD mode and is otherwise the top-level `in` test of the whole keypath. `set` stores the text in the cached object, where `get` finds it. |
| Persist.WriteToUnloadableFile | src/core/i18nFile/I18nItem.ts:417-420 | When the file cannot be loaded the cache is unchanged and `set` lands on a throw-away `{}`. The source file is still rewritten when it has pairs. |
| Persist.WriteInAddModeSkipsProbe | src/core/i18nFile/I18nItem.ts:418-420 | In ADD mode `keypath in file` is never evaluated, so a step cannot throw there. Whatever the cache holds or the load gives (`null`, a string, nothing), a file text with pairs is rewritten and written, and the mode stays ADD. |
| Persist.WriteAddsMissingKey | src/core/i18nFile/I18nItem.ts:414-431 | For a keypath without `"` that is not an `Object.prototype` name, writing a key missing from both the cached object and the source turns the mode to ADD. The new file text is the old text with one new pair inserted before some other pair. |
| Persist.WriteEditsPresentKey | src/core/i18nFile/I18nItem.ts:414-431 | Writing a key already present, outside ADD, keeps the mode and edits that key's value in place. |
| Persist.WriteTouchesOnlyRecordFiles | src/core/i18nFile/I18nItem.ts:414-431 | A cache entry for a path no record names is left as it was. |
| Persist.DeleteKey | src/core/i18nFile/I18nItem.ts:319 | `delete file[keypath]` removes that top-level property only. |
| Persist.RemoveOne | src/core/i18nFile/I18nItem.ts:317-324 | One `forEach` step leaves the cache and disk that `RemoveStep` describes. |
| Persist.RemoveI18n | src/core/i18nFile/I18nItem.ts:314-325 | The final cache, disk and error are those of `RemoveSpec` on the old state. |
| Persist.RemoveStepDeletes | src/core/i18nFile/I18nItem.ts:317-324 | A cached file with pairs on disk loses the property in the cache and the pairs in the source text. |
| Persist.RemoveStepFails | src/core/i18nFile/I18nItem.ts:317-324 | A step throws exactly when the file is not cached, is not on disk, has no pair, or cannot be written. A throw leaves the disk untouched, and the cache untouched only when the `delete` itself threw. |
| Persist.RemoveTouchesOnlyRecordFiles | src/core/i18nFile/I18nItem.ts:314-325 | Removing leaves every file no record names untouched, in the cache and on disk. |
| Persist.RemoveAllDistinct | src/core/i18nFile/I18nItem.ts:314-325 | When every step succeeds on distinct files, each file loses the key in the cache and in its source. |
| Find.FindValue | src/core/commands/findI18n.ts:9-23 | `findValue` appends to `result` exactly the hits `Found` states. |
| Find.VisitEntry | src/core/commands/findI18n.ts:10-20 | One loop turn appends that entry's hits. |
| Find.Matching | src/core/commands/findI18n.ts:14-19 | At most one hit per leaf. |
| Find.MatchingAppend | src/core/commands/findI18n.ts:10-21 | Hits of consecutive entries concatenate. |
| Find.FoundIsMatchingLeaves | src/core/commands/findI18n.ts:9-23 | The hits are exactly the leaves equal to the text, in traversal order, each named by its parent key and its own key. |
| Find.FoundFromIsMatching | src/core/commands/findI18n.ts:10-21 | The same holds for the entries from any index on. |
| Find.LeafKeypaths | src/core/commands/findI18n.ts:12 | Every hit's keypath is one property name, the parent's, not a dotted path. |
| Find.NestedHitKeepsOnlyParent | src/core/commands/findI18n.ts:12-17 | For `{a: {b: {c: t}}}` the hit is `b.c`, not `a.b.c`. |
| Find.OnFindI18n | src/core/commands/findI18n.ts:25-72 | The command's outcome and the cache are those of `OnFindSpec`. |
| Find.Labels | src/core/commands/findI18n.ts:53-60 | Each quick-pick label is `keypath.keyName` of its hit, in order. |
| Find.FindIgnoresCacheState | src/core/i18nFile/I18nItem.ts:351-353 | FIND-mode records do not depend on the cache. |
| Find.OnFindIgnoresCache | src/core/commands/findI18n.ts:36-40 | The find command's outcome does not depend on the cache. |
| Find.PickedLabels | src/core/commands/findI18n.ts:38-60 | The labels offered are those of the leaves of the source-locale text equal to the selection, in order. The list is non-empty. |
| Find.ChosenTexts | src/core/commands/findI18n.ts:56-58 | The three buttons replace the selection with `{{ $t('label') }}`, `this.$t('label')` and `$t('label')`. |
| Editor.GetCommands | src/editor/extract.ts:10-52 | Four code actions: three extract commands with templates, then the find command. |
| Editor.ExtractTemplatesInsertKey | src/editor/extract.ts:6-8 | The first two templates put the key between `$t('` and `')`. |
| Editor.ThirdTemplateIgnoresKey | src/editor/extract.ts:32-41 | The third template has no `{key}` placeholder: whatever the key, it inserts `$t('key')`. |
| Extract.SpaceRun | src/core/commands/extract.ts:39-41 | The length of the leading whitespace run. |
| Extract.JoinWords | src/core/commands/extract.ts:39-41 | After `replace(/\s+[a-z]?/g, …)` no whitespace is left. |
| Extract.JoinWordsCapitalises | src/core/commands/extract.ts:39-41 | A whitespace run followed by a lower-case letter becomes that letter upper-cased. The text before the run is kept, and the rest is joined the same way. |
| Extract.JoinWordsDropsRun | src/core/commands/extract.ts:39-41 | A whitespace run followed by anything but a lower-case letter, or by nothing, is dropped. The text before it is kept, and the rest is joined the same way. |
| Extract.SpaceRunOf | src/core/commands/extract.ts:39-41 | `\s+` matches the whole whitespace run and stops at the first non-whitespace character. |
| Extract.JoinWordsNoSpace | src/core/commands/extract.ts:39-41 | Text without whitespace is unchanged. |
| Extract.FirstNonLetter | src/core/commands/extract.ts:42 | The first character that is not an ASCII letter, or -1. |
| Extract.DropFirstNonLetter | src/core/commands/extract.ts:42 | The non-global replace drops only the first non-letter. |
| Extract.DefaultKey | src/core/commands/extract.ts:42 | The proposed key starts with `type.`. |
| Extract.QualifyKey | src/core/commands/extract.ts:57-59 | In the folder layout a key without a dot gains `common.`, so it always has a dot. Otherwise the key is kept. |
| Extract.DrawsFor | src/core/i18nFile/I18nItem.ts:168 | One draw in `[0, 1)` per record written. |
| Extract.SubmitKey | src/core/commands/extract.ts:76-87 | The `ADD` lookup, translation and write leave the end and the cache `Submit` describes. |
| Extract.PromptKey | src/core/commands/extract.ts:34-59 | The key chosen is the one `ChooseKey` describes. |
| Extract.CheckAndSubmit | src/core/commands/extract.ts:62-88 | The check, the edit and the submission yield what `AfterKey` describes. |
| Extract.OnExtract | src/core/commands/extract.ts:15-89 | The command's result and cache are those of `OnExtractSpec`. |
| Extract.AfterKeyCheckThrew | src/core/commands/extract.ts:62 | When `overrideCheck` throws, nothing is edited or written, and the cache is the one the check's lookups left. |
| Extract.AfterKeyDeclined | src/core/commands/extract.ts:65-73 | When the user declines, the selection is still replaced, nothing is written, and the cache is the one the check's lookups left. |
| Extract.AfterKeySubmits | src/core/commands/extract.ts:65-88 | When the check passes, the selection is replaced and the key is submitted on the cache the check's lookups left. |
| Extract.AfterKeyEdits | src/core/commands/extract.ts:62-73 | Once a key is entered, the selection is replaced exactly when `overrideCheck` did not throw, always by the key in the template, and the command is not cancelled. |
| Extract.EditIffChecked | src/core/commands/extract.ts:15-89 | The editor is edited exactly when a key was entered and `overrideCheck` did not throw, and the edit inserts that key into the template. The command is cancelled exactly when no key was entered. A failed key translation or a dismissed prompt leaves the cache as it was. A thrown or declined check leaves in the cache only what its lookups loaded. |
| Extract.EarlyEndingsCache | src/core/commands/extract.ts:34-73 | A failed key translation or a dismissed prompt leaves the cache as it was. A thrown or declined check keeps every cache entry, and any entry it adds or changes is a loaded module. |
| Extract.SubmitEnds | src/core/commands/extract.ts:76-87 | A submission ends without a source record, with a failed translation, or with the writes issued. |
| Extract.DirKeyQualified | src/core/commands/extract.ts:44-59 | In the folder layout the key used is the non-empty answer, or the answer with `common.` in front, and it has a dot. |
| Extract.SourceTextTranslated | src/core/commands/extract.ts:84-85 | With the selection as source text, the source record carries the selection and every other record its translation. |
| Extract.SubmitWritesTranslations | src/core/commands/extract.ts:76-87 | When the writes are issued, every write runs in ADD mode and the source record holds the selected text. Every other record holds the translation of that text into its locale. |
| Values.Lookup | src/core/i18nFile/I18nItem.ts:383 | A property lookup finds a value exactly when a field has that name. |
| Values.SetField | src/core/i18nFile/I18nItem.ts:419 | Setting a property makes it hold the value and leaves every other property. |
| Values.Child | src/core/i18nFile/I18nItem.ts:419 | lodash `set` walks through an object-like child, creating one where needed. |
| Values.ChildArrayFree | src/core/i18nFile/I18nItem.ts:419 | In an array-free object the child walked through is an array-free object. |
| Values.GetSet | src/core/i18nFile/I18nItem.ts:383-419 | `get(set(file, keypath, text), keypath) == text` for array-free objects. |
| Values.SetOtherBranch | src/core/i18nFile/I18nItem.ts:419 | `set` leaves values under a different first segment alone. |
| Values.HasIn | src/core/i18nFile/I18nItem.ts:418 | `keypath in file` throws on non-objects, and holds for every own property. |
| Values.DeleteField | src/core/i18nFile/I18nItem.ts:319 | `delete` removes that property and keeps every other. |
| Values.Entries | src/core/commands/findI18n.ts:10 | `Object.entries` throws on `undefined` and `null`. It lists an object's own fields, an array's items and a string's characters under their indexes, and nothing for numbers and booleans. |
| Values.EntriesSmaller | src/core/commands/findI18n.ts:11-12 | `findValue` recurses only into smaller values. |
| Strings.UpperStr | src/core/utils/index.ts:12 | Upper-casing maps each character. |
| Strings.LowerStr | src/core/utils/index.ts:23 | Lower-casing maps each character. |
| Strings.Split | src/core/i18nFile/I18nItem.ts:257 | `split('.')` yields at least one part, none containing a dot. |
| Strings.JoinSplit | src/core/i18nFile/I18nItem.ts:257-263 | `split('.')` followed by `join('.')` gives back the key. |
| Strings.SplitJoin | src/core/i18nFile/I18nItem.ts:257-263 | Joining dot-free parts and splitting again gives back the parts. |
| Strings.IndexOf | src/core/i18nFile/I18nItem.ts:404 | `indexOf` finds the first occurrence, or -1 when there is none. |
| Strings.ReplaceFirstAtIndex | src/core/i18nFile/I18nItem.ts:173 | A string `replace` splices in the replacement at the first occurrence only. |
| Strings.ReplaceAllOnce | src/editor/extract.ts:6-8 | A global replace of a pattern occurring once swaps that occurrence. |
| Strings.ReplaceAllAbsent | src/editor/extract.ts:6-8 | A global replace of an absent pattern changes nothing. |
| Strings.NatToString | src/core/commands/findI18n.ts:10 | Index names are decimal digits without a leading zero. |
| Strings.ParseNatToString | src/core/commands/findI18n.ts:10 | An index name parses back to its index. |
| Strings.LastIndexOf | src/core/i18nFile/I18nItem.ts:93 | The last occurrence of a character, or -1 when there is none. |

## Left out

- Order of `lngs`: the `sort` callback takes one argument, so the order depends on the JavaScript engine. The model keeps listing order, and every later step takes `lngs` as given. `Lngs` is therefore a filter, not a sort.
- I/O is modelled as parameters. `fs.readFileSync`, `fs.lstatSync`, `fs.writeFile`, `readdirSync`, `load` (a ts-node child process over JSON) and the fast-glob call are values or functions passed in (see above).
- The regex `/\s*(\w+):\s*("[^"]*")(,)?/gm` is not implemented as a regex engine. Its matches reach the model already cut into `Other` and `Pair` chunks (`fs.tokenize`). The chunk predicates say what the regex guarantees about each match.
- `Math.random()` is a parameter: a real in `[0, 1)` for each call of `dataStringify`. The `id` field of a record (`Math.random().toString(36)`) is not modelled.
- `dataParse`, `setFileExt` and `watch()`'s registration are not modelled: `dataParse` and `setFileExt` are never called, and `watch()` only tells VS Code to call `updateFile`. `fileExt` is always `.js`.
- `src/core/Config.ts` is not part of this model: `sourceLocale`, `i18nCommonPath` and `filenameToKebabCase` are parameters.
- The `i18nFile` registry (`getFileByFilepath`) is not part of this model: the item and its common item are given as `Root` values.
- Case mapping covers ASCII letters only. `\w` is ASCII. `\s` is the ECMAScript whitespace set.
- Numbers in locale files are integers. Floating point is not modelled, and `ToTemplate` renders integers only.
- Concurrency: `Promise.all` tasks run in order in the model. The physical order of writes, and interleaving with watcher events, is not modelled. Each `writeI18n` step rewrites from the disk snapshot taken when the call starts.
- Extract.OnExtract: `keyTransform` and `defaultKeyTransform` are the defaults (identity). `mainTrans.selectWriteI18nPath` is never set to a function (src/core/commands/extract.ts:88 sets it to `null`), so the path override is left out. The `valueSelection` range of the input box is not modelled.
- Extract.OnExtract: `writeI18n` is not awaited. The model reports the outcomes of the writes it issues, and errors in them do not reach the command.
- Console output, `Log.error` and the "not found" information message are not modelled. The message appears as the `NothingFound` outcome.
- The `onDidTriggerItemButton` callback's editor change is modelled by `Find.Chosen` on the chosen item and button, not as a UI event.
- `parseFilepath`'s result is unused by `getFileI18n`, so `Resolve.ParseFilepath` is modelled on its own.
- Values.GetSet: proved for objects whose nested values contain no arrays. lodash's handling of numeric segments inside arrays is not covered.
- Values.HasIn: on an array, `in` also holds for the names inherited from `Array.prototype` (`push`, `map`, `forEach`, …). The model knows only the indexes, `length` and the `Object.prototype` names.
- Values.DeleteField: `delete a[i]` on an array leaves a hole and keeps the length. `Persist.DeleteKey` models `delete` on objects only and returns an array unchanged.
- Values.Child: before a numeric segment lodash `set` creates an array (`[]`), not `{}`. The model always creates an object.
- Strings.ReplaceFirst: the `$` patterns of a replacement string (`$&`, `$1`, `$$`, …) are not interpreted. The model therefore differs from JavaScript when the text or key written contains `$`. This affects the `"${text}"` replacements of `dataStringify` (src/core/i18nFile/I18nItem.ts:173, 176).
- Editor.KeyReplace: for the same reason, a key containing `$` is inserted literally, where `replace(/{key}/g, key)` (src/editor/extract.ts:7) would expand its `$` patterns.
- Locales.JoinPath: `path.join` and `path.resolve` are plain concatenation with `/`. Normalisation (`.`, `..`, doubled separators), absolute second arguments and Windows separators are not modelled (src/core/i18nFile/I18nItem.ts:351, 355, 372).
- Utils.NormalizeLng: the locale table `src/core/lngs` is not part of this model and is a parameter.
