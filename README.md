# dependency-report: the usage-aggregation core, modelled in Dafny

dependency-report scans JavaScript and TypeScript sources and reports how often, and where,
each package's named exports are imported. This project models the core of that:

- **Import-name extraction** (`lib/ast-runner.js`). Each import declaration becomes one record:
  the module specifier plus the names its specifiers count as. A default import counts under
  its local name. `Pane as EGPane` counts as `Pane`. A namespace import counts under its
  local name. Module `ImportNames`.
- **The package record** (`lib/package.js`). `Package` is a class whose methods update its
  fields in place: the ordered list of imported names with duplicates kept, the list of
  importing files, and for each name the files that imported it. Its reports are:
  `exportsUsage(name)`, the ranked `exportsUsage()`, `usageReport`, `exportReport` and
  `toPlainObject`. Modules `PackageRecord` and `Ranking`. `Ranking.Rank` is a stable insertion
  sort with the same result as the sort in the source.
- **The usage index** (`lib/dependency-report.js`). It covers:
  - the constructor's option checks and defaults;
  - `run`, modelled as a fold over the outcomes of the discovered files, in the order the file
    tasks complete. It creates `Package` objects and mutates them, and it bumps the
    export-name index. It is imperative in `UsageIndex` and a value-level specification in
    `Aggregation`, and each method is proved equal to its specification;
  - the queries `getPackages`, `getByExportNames` and `toPlainObject`.

  JavaScript `Map`s, whose iteration follows first insertion, are `OrderedMaps.OMap`: the keys
  in insertion order together with a finite map.

Main results:

- The two indices stay in agreement after every step (`Aggregation.Agrees`):
  - an entry (name, key) exists iff package `key` has seen `name`;
  - its file list is exactly that package's file list for the name;
  - its usage is that list's length and the package's own count of the name.
- Aggregation is additive file by file.
- Files that fail to parse can be dropped without changing anything.
- The completion order of the file tasks changes no count, and no list's files up to order.
- The ranked usage list:
  - lists every name once;
  - is non-increasing;
  - sums to the number of occurrences;
  - keeps first-occurrence order among equal usages.

## Model

| member | source | states |
|---|---|---|
| ImportNames.CountedName | lib/ast-runner.js:11-17 | a default specifier counts under its local name; a non-default one under its imported name when it has one, else under its local name |
| ImportNames.GetExportNames | lib/ast-runner.js:5-22 | the loop yields exactly the name list of the specifiers (`NamesOf`): one counted name per specifier, in specifier order |
| ImportNames.CollectImports | lib/ast-runner.js:31-50 | one record per declaration, in visit order, each with the declaration's source and its specifiers' names. The accumulated name list is the concatenation of the records' lists. |
| ImportNames.ConcatNamesLength | lib/ast-runner.js:39-48 | the accumulated name list has one entry per specifier over all declarations. A specifier-less import contributes an empty list. |
| Wrappers.OneOrMany.AsList | lib/package.js:77 | a single string argument is treated as a one-element list, and an array as itself |
| OrderedMaps.Put | lib/dependency-report.js:64-66 | `Map.set`: the entry is updated. A new key goes to the end of the key order, an existing key keeps its place. Distinct keys are preserved. |
| OrderedMaps.PutTwice | lib/dependency-report.js:76-93 | setting a key twice equals setting it once to the second value |
| PackageRecord.NewPackage | lib/package.js:1-6 | a new record is empty and satisfies the record invariant |
| PackageRecord.AddOccurrences | lib/package.js:11-17 | the loop in `addExports` creates a list for every name of the call that had none, keeps every existing name, adds no other name and keeps the keys distinct |
| PackageRecord.AddOccurrencesAt | lib/package.js:11-17 | after the loop, each name's file list is its old list followed by the file once per occurrence of that name. Names not in the list keep their lists. |
| PackageRecord.AddExportsKeepsConsistent | lib/package.js:8-18 | `addExports` keeps the record invariant: each name has a file list iff it was seen, and that list is as long as the name's count |
| PackageRecord.AddFilepathKeepsConsistent | lib/package.js:20-22 | `addFilepath` keeps the record invariant |
| PackageRecord.Package.constructor | lib/package.js:1-6 | the new object holds the name and empty state, and satisfies the invariant |
| PackageRecord.Package.AddExports | lib/package.js:8-18 | the new state is `AddExportsValue` of the old one: the old one with the names appended, duplicates kept, and the file appended to each name's list once per occurrence. The invariant is kept. |
| PackageRecord.Package.AddFilepath | lib/package.js:20-22 | the new state is `AddFilepathValue` of the old one: exactly one file entry is appended. Nothing else changes and the invariant is kept. |
| PackageRecord.Package.Tally | lib/package.js:25-33 | the counting map's keys are the distinct names in order of first occurrence, and each count is that name's number of occurrences |
| PackageRecord.Package.UsageOf | lib/package.js:24-37 | `exportsUsage(name)` is the name's number of occurrences, 0 when it never occurs |
| PackageRecord.Package.RankedUsage | lib/package.js:39-44 | `exportsUsage()` is the ranked usage list of the name list |
| PackageRecord.Package.UsageReport | lib/package.js:68-74 | `files` is the number of file entries. `exportsUsage` is exactly the ranked usage list of the name list: each seen name once, usages summing to the number of name occurrences. |
| PackageRecord.Package.ExportReport | lib/package.js:76-87 | one entry per requested name, in request order. Each entry carries that name's file list (empty when unseen) and its length, which equals the name's count. |
| PackageRecord.Package.ToPlainObject | lib/package.js:47-62 | name and file list unchanged. The name-to-files object has exactly the seen names; each list is the record's list for that name, and as long as the name's count. |
| Ranking.Occurrences | lib/package.js:25-33 | the counting map has exactly the names of the list, each mapped to its number of occurrences |
| Ranking.Rank | lib/package.js:40 | the sorted keys are a permutation of the input, sorted by non-increasing count |
| Ranking.RankStable | lib/package.js:40 | the sort is stable: keys with equal counts keep their input order |
| Ranking.UsageList | lib/package.js:39-44 | the ranked list has one entry per distinct name, and every entry's name was seen |
| Ranking.UsageListNamesOnce | lib/package.js:39-44 | every seen name appears exactly once in the ranked list, and no other name appears |
| Ranking.UsageListCounts | lib/package.js:41-44 | each entry's usage is its name's number of occurrences |
| Ranking.UsageListNonIncreasing | lib/package.js:40 | usages are non-increasing down the list |
| Ranking.UsageListSum | lib/package.js:39-44 | the usages add up to the number of name occurrences |
| Ranking.UsageListTies | lib/package.js:39-44 | the names with a given usage appear in the order of their first occurrence |
| Aggregation.ContainsDotSlash | lib/dependency-report.js:60 | `includes('./')`: true iff some position holds '.' followed by '/' |
| Aggregation.PackageKey | lib/dependency-report.js:59-62 | a specifier containing './' is joined onto the importing file's path. Any other specifier is the key verbatim. |
| Aggregation.ParentRelativeIsJoined | lib/dependency-report.js:59-62 | a '../' specifier also counts as relative and is joined |
| Aggregation.EmptyIndex | lib/dependency-report.js:34-35 | both maps start empty |
| Aggregation.EmptyAgrees | lib/dependency-report.js:34-35 | the empty state satisfies the cross-index invariant |
| Aggregation.Bump | lib/dependency-report.js:76-93 | one name occurrence (create the name's entry, create the key's entry, raise the usage, append the file) keeps the export-name index well formed |
| Aggregation.BumpAll | lib/dependency-report.js:75-94 | the by-export loop over a record's names keeps the export-name index well formed: distinct keys at both levels |
| Aggregation.BumpAllIn | lib/dependency-report.js:75-87 | after a record's names are processed, an entry (name, key) exists iff it existed or the record filed `name` under `key` |
| Aggregation.BumpAllUsage | lib/dependency-report.js:89 | each name occurrence raises (name, key) usage by one. Other keys are untouched. |
| Aggregation.BumpAllFiles | lib/dependency-report.js:90-93 | each name occurrence appends the file to the (name, key) list. Other keys are untouched. |
| Aggregation.AddRecordValue | lib/dependency-report.js:64-94 | one record keeps both maps well formed |
| Aggregation.AddRecordEffect | lib/dependency-report.js:64-72 | after one record the package exists. A new package goes to the end of the key order. Its file list grows by exactly this file and its name list by exactly the record's names. Every other package is unchanged. |
| Aggregation.AddRecordPackageAt | lib/dependency-report.js:64-72 | the same, as seen from any one key |
| Aggregation.AddRecordKeepsAgreement | lib/dependency-report.js:64-94 | one record keeps the two indices in agreement |
| Aggregation.AddRecordsValue | lib/dependency-report.js:55-95 | the record loop of one file keeps both maps well formed |
| Aggregation.AddRecordsKeepsAgreement | lib/dependency-report.js:55-95 | one file's records keep the agreement |
| Aggregation.AggregateKeepsAgreement | lib/dependency-report.js:41-104 | the whole run keeps the agreement, starting from the empty maps |
| Aggregation.UsageIsPackageCount | lib/dependency-report.js:89-93 | under the agreement, (name, key) usage equals `packages[key].exportsUsage(name)` and the length of its file list |
| Aggregation.AddRecordsNames | lib/dependency-report.js:55-72 | over one file, package `k`'s name list grows by exactly the names of the records filed under `k`, in order |
| Aggregation.AddRecordsFiles | lib/dependency-report.js:55-72 | over one file, package `k`'s file list gains the file once per record filed under `k`; `k` exists afterwards iff it existed or such a record exists |
| Aggregation.AddRecordsUsage | lib/dependency-report.js:55-95 | over one file, (name, key) usage and file-list length rise by the name's occurrences among the names filed under the key |
| Aggregation.AddRecordsNameFiles | lib/dependency-report.js:55-95 | over one file, the (name, key) file list gains the file once per occurrence of the name among the names filed under the key |
| Aggregation.AggregateNames | lib/dependency-report.js:41-104 | additivity: each package's name list is the concatenation of the files' contributions in processing order |
| Aggregation.AggregateFiles | lib/dependency-report.js:41-104 | each package's file-entry count is the number of records filed under it. It exists iff at least one such record exists. |
| Aggregation.AggregateFileList | lib/dependency-report.js:41-104 | each package's file list is its old list followed by every parsed file's path, in processing order, once per record of that file filed under the package |
| Aggregation.AggregateNameFiles | lib/dependency-report.js:41-104 | each (name, key) file list is its old list followed by every parsed file's path, in processing order, once per occurrence of the name among that file's names filed under the key |
| Aggregation.AggregateUsage | lib/dependency-report.js:41-104 | each (name, key) usage and file-list length is the name's count among all names filed under the key |
| Aggregation.AggregateAppend | lib/dependency-report.js:41-104 | aggregating two batches of files equals aggregating the first and continuing with the second |
| Aggregation.FailuresContributeNothing | lib/dependency-report.js:48-53 | a file whose parse failed contributes nothing: the result equals the aggregation over the parsed files only |
| Aggregation.AllNamesPermutation | lib/dependency-report.js:41-44 | reordering the files keeps each key's multiset of contributed names |
| Aggregation.AllCountPermutation | lib/dependency-report.js:41-44 | reordering the files keeps each key's number of records |
| Aggregation.CompletionOrderIrrelevant | lib/dependency-report.js:41-104 | for any two completion orders of the same files, every usage, every package's name counts, every package's number of file entries and the set of packages are the same |
| Aggregation.CompletionOrderKeepsFiles | lib/dependency-report.js:41-104 | for any two completion orders of the same files, every package's file list and every (name, key) file list hold the same files, up to order |
| Aggregation.RepeatedFileDoubles | lib/dependency-report.js:55-95 | processing the same file twice doubles every usage, file-list length and name count |
| UsageIndex.CheckOptions | lib/dependency-report.js:13-26 | there is an error exactly for missing options and for missing `files`. The parser is the given one, or `babel` when it is absent or empty. The exclusion glob is `!` plus the given glob, or `!**/node_modules/**` when it is absent or empty. |
| UsageIndex.BumpExportName | lib/dependency-report.js:76-93 | one pass of the innermost loop equals one `Aggregation.Bump` of the value |
| UsageIndex.BumpExportNames | lib/dependency-report.js:75-94 | the innermost loop equals processing each name of the record in turn |
| UsageIndex.AddRecord | lib/dependency-report.js:59-94 | the body of the record loop equals the record specification on the value of the objects. Distinct keys keep distinct package objects, and only fresh objects are added. |
| UsageIndex.AddFile | lib/dependency-report.js:55-95 | the record loop of one file equals the file specification |
| UsageIndex.DependencyReport.constructor | lib/dependency-report.js:12-27 | the fields hold the checked options. No run has happened and both maps are empty. |
| UsageIndex.DependencyReport.Run | lib/dependency-report.js:32-110 | no files is an error that changes nothing. Otherwise both maps are rebuilt to the aggregation of the outcomes, and the agreement invariant holds. |
| UsageIndex.DependencyReport.GetPackages | lib/dependency-report.js:115-121 | only before any run does it fail. It returns exactly the packages whose key matches some glob, each once, in key-insertion order. |
| UsageIndex.DependencyReport.GetByExportNames | lib/dependency-report.js:146-162 | exactly the requested names present in the index, each once, in index order, each with a copy of its per-package entries |
| UsageIndex.DependencyReport.GetByExportNamesUsage | lib/dependency-report.js:153-155 | each returned per-package usage equals that package's count of the name and its file list's length |
| UsageIndex.DependencyReport.ToPlainObject | lib/dependency-report.js:123-141 | only before any run does it fail. Otherwise it carries the option fields and one plain package per key, which is that package's own plain object (with that key and that package's file list), plus the export-name entries. |
| UsageIndex.DependencyReport.PlainObjectAgrees | lib/dependency-report.js:123-141 | in the plain object, the files listed for (name, key) in the export-name part equal the files package `key` lists for that name |

## Left out

- File discovery with `globby`, and reading the files: `run` takes one outcome per discovered file, either the parsed records or a parse failure.
- Concurrency (`p-limit`, `Promise.all`): the aggregation contains no `await`, so it is a sequential fold in one chosen completion order. Map insertion orders, the order inside file lists and ranking ties depend on that order. Counts do not (`CompletionOrderIrrelevant`), and neither do the files each list holds, up to order (`CompletionOrderKeepsFiles`).
- Read failures: the read sits outside the `try`, so a failed read rejects the whole run. Only parse failures are isolated, and the model has only those.
- The `files` list that `run` returns (its `.filter(Boolean)` acts on promises and removes nothing), and the message that is logged for a parse failure.
- `minimatch` and `path.join` are function-valued parameters (`matches`, `join`); only the dispatch on './' is modelled.
- Aggregation.PackageKey: relative specifiers are joined onto the importing file's own path, as the code does; a directory-based key is not modelled. With `join` uninterpreted, the model cannot show how the two keys differ.
- The parse itself (`recast`, the parser plugins, the TypeScript parser configuration): declarations arrive as `ImportDeclaration` values.
- The command-line interface, JSON text (`toJSON`, `JSON.stringify`): the inner `Map` that `JSON.stringify` would print as `{}` is not modelled. Plain objects are Dafny maps, so their key order, including the engine's ordering of integer-like keys, is not modelled.
- PackageRecord.Package.ToPlainObject: the plain object is a Dafny map, so a name `"__proto__"` is kept as an ordinary key. In the source, assigning that key on a plain object sets the prototype instead and the key does not appear, so the membership clause is stronger than the code for that one name. The same holds for `__proto__` keys in `UsageIndex.DependencyReport.ToPlainObject` and `UsageIndex.DependencyReport.GetByExportNames` (lib/dependency-report.js:128, 132, 154).
- ImportNames.CountedName: a string-literal imported name (`import { "a-b" as x } from 'm'`) has no `.name`, so the source records `undefined` as the name. The model's `Specifier` carries an optional string, which cannot express that value.
- Aggregation.Aggregate, Aggregation.AddFileValue: the folds carry no contract of their own. Their properties are the lemmas about them (`AggregateNames`, `AggregateFileList`, `AggregateFiles`, `AggregateUsage`, `AggregateKeepsAgreement`, `AggregateAppend`, `FailuresContributeNothing`), which cite the same lines.
- PackageRecord.Consistent: the record invariant does not state the key order of `filepathsForExports`, only its keys and list lengths.
- UsageIndex.CheckOptions: a `files` property that is present but not a list is not modelled. `files` is either an absent property or a list of globs.
- Queries before the first run: `getPackages` and `toPlainObject` would throw a `TypeError`. Here they return a `Failure` with the engine's message. `getByExportNames` returns `[]`, as in the source, because its index starts empty.
- `exportsUsage(x)` dispatches on `typeof x === 'string'`. It is modelled as two methods, `UsageOf` and `RankedUsage`.
- The worked fixture of the test suite (the ranked list at test/dependency-report.js:125-134 and the `Dialog` usages at 164-167) is not evaluated on its concrete strings, because evaluating string literals is too costly for the verifier. The general lemmas above state the properties those expectations follow from.
