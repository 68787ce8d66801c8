# cef-detector, modelled in Dafny

cef-detector finds installations of the Chromium Embedded Framework (CEF) on a Linux machine. For each of five signature file names (`CEF_FILES`) it asks `locate` for the matching paths. It keeps the paths that are regular files and groups them by parent directory. It then merges the groups of all five signatures into one registry keyed by directory. Each entry (`App`) holds the directory, its `du -s` size and the set of signature files found in it. The run ends with the number of installations and their total size, with the unit chosen by `format_size`.

This project models that pipeline:

- `paths.dfy` (`Paths`): the parent directory of a path, and the path's last component.
- `path_index.dfy` (`PathIndex`): `locate`'s filter-and-group loop, as a method. It is proved against a reference grouping (`Grouping`) and an abort-at-first-unreadable-candidate rule (`LocateSpec`).
- `aggregator.dfy` (`Aggregator`): the merge loops of `main`, as methods. The outer loop runs over signatures and the inner loop over the directories one `locate` found, in any order. Both are proved against a fold over signature rounds (`Aggregate`, `ScanSpec`).
- `aggregator_properties.dfy` (`AggregatorProperties`): what the registry satisfies. This covers keys, paths, the union of member files, the first measured size sticking, idempotent merges, one measurement per discovery, and that only regular files appear, each under its own parent.
- `summary.dfy` (`Summary`): the count and total-size loop. `detector.dfy` (`Detector`): the whole run over `CEF_FILES`.
- `format_size.dfy` (`FormatSize`): the unit-selection loop of `format_size`, on exact integers.
- `disk_usage.dfy` (`DiskUsage`): how `disk_usage` turns `du`'s output into a number.
- `scenario.dfy` (`Scenario`): one end-to-end run with two signatures found in the same directory.

The external services are parameters:

- `search(pattern)` is the list of lines `locate -r pattern` prints.
- `stat(path)` is what `metadata(path)` reports: an error, or whether the path is a regular file.
- `du(round, dir)` is what `disk_usage(dir)` returns while the signature with index `round` is processed. Because the filesystem can change between rounds, the measurement may differ from round to round.

Two behaviours of the code shape the model:

- `disk_usage` runs for every `(directory, files)` pair of every signature (src/main.rs:77), before `or_insert` decides whether to keep the value. The model keeps the first value (`AggregateFirstSizeSticks`) and counts one measurement per discovery (`DiscoveriesCount`).
- `metadata(..).unwrap()` (src/main.rs:36) aborts the run at the first unreadable candidate. The model returns `Failure(MetadataFailed(path))` for that candidate, and the failure ends the scan.

## Model

| member | source | states |
|---|---|---|
| `Paths.LastSlash` | src/main.rs:38-39 | the index of the last '/', with no '/' after it, or -1 when there is none |
| `Paths.Parent` | src/main.rs:38-39 | `PathBuf::parent` for the paths `locate` prints; the definition is the model. Its contract: the parent is never longer than the path. `ParentShape` and `ParentFileNameRoundTrip` state the rest |
| `Paths.ParentShape` | src/main.rs:38-39 | the parent is a prefix of the path, it is empty exactly when the path has no '/', and an absolute path has an absolute parent |
| `Paths.ParentFileNameRoundTrip` | src/main.rs:38-39 | the parent and the last component rebuild the path; the last component contains no '/' |
| `PathIndex.GroupingPartitions` | src/main.rs:38-43 | the grouping has one key per parent of a file; each set is non-empty, holds only files with that parent, and every file is in its parent's set |
| `PathIndex.FirstUnavailable` | src/main.rs:34-36 | the first candidate whose metadata fails, with every earlier candidate readable, or the length when all are readable |
| `PathIndex.GroupingAdd` | src/main.rs:41-43 | `entry(parent).or_insert(empty).insert(path)` on the grouping of a set of files gives the grouping of that set plus the path |
| `PathIndex.LocateStep` | src/main.rs:35-43 | one more readable candidate changes the grouping only if it is a regular file, and then only by adding it to its parent's set |
| `PathIndex.Locate` | src/main.rs:23-48 | the loop returns the failure of the first unreadable candidate, or else the grouping of exactly the candidates that are regular files |
| `PathIndex.LocateOnlyRegularFiles` | src/main.rs:36-43 | a path is in the set under `d` if and only if it was a candidate, is a regular file, and has parent `d` |
| `PathIndex.LocateFailsAtFirstUnreadable` | src/main.rs:35-36 | `locate` fails if and only if some candidate's metadata fails, and it reports the first such candidate |
| `PathIndex.LocatePartition` | src/main.rs:38-43 | no path is under two directories of `locate`'s result |
| `Aggregator.CefFilesDistinctQueries` | src/main.rs:15-21 | `CEF_FILES` (the constant `CefFiles` is the model) has five signatures, and their five `locate` queries are pairwise distinct |
| `Aggregator.Pattern` | src/main.rs:75 | the `format!(r"\/{}$", sig)` query; the definition is the model. Its contract: the query is an escaped '/', then the signature, then the end-of-line anchor. `PatternInjective` states that the signature is determined by the query |
| `Aggregator.PatternInjective` | src/main.rs:75 | different signatures give different `\/sig$` queries |
| `Aggregator.MergeEntry` | src/main.rs:77-85 | one `entry(dir).or_insert(App {..}).cef_files.extend(files)` step; the definition is the model. Its contract: the result has the old keys plus `dir`, and `dir`'s set contains `files`. `MergeEntryFrame` states what else stays as it was, and `MergeEntryIdempotent` that repeating the step changes nothing |
| `Aggregator.MergeLocated` | src/main.rs:76-86 | merging one `locate` result, in any directory order, gives the order-free reference merge, and it measures each of its directories exactly once |
| `Aggregator.Scan` | src/main.rs:72-87 | the nested loops yield the first `locate` failure, or the fold of all signature rounds; the directories measured are those of every round, counted once per round |
| `Aggregator.DiscoverPrefixFails` | src/main.rs:74-75 | once the `locate` of one signature fails, later signatures do not change the outcome |
| `AggregatorProperties.AggregateKeys` | src/main.rs:74-87 | the registry has a key for `d` if and only if some signature's `locate` result has `d` |
| `AggregatorProperties.AggregatePath` | src/main.rs:78-83 | each `App`'s `path` is its own key |
| `AggregatorProperties.AggregateFiles` | src/main.rs:78-85 | an `App`'s `cef_files` is exactly the union, over all signatures, of the files found in its directory |
| `AggregatorProperties.AggregateFirstSizeSticks` | src/main.rs:77-83 | an `App`'s `size` is the value measured in the round of the first signature that found its directory |
| `AggregatorProperties.MergeEntryIdempotent` | src/main.rs:78-85 | merging the same `(dir, files)` pair twice equals merging it once, whatever the second measurement |
| `AggregatorProperties.MergeEntryFrame` | src/main.rs:78-85 | a merge only adds its own key; an existing entry keeps its size and path and only gains files; other keys are untouched; a new entry holds the measured size and the files |
| `AggregatorProperties.DiscoveriesCount` | src/main.rs:76-77 | `disk_usage` is called on a directory once for each signature whose result contains it |
| `AggregatorProperties.DiscoverResults` | src/main.rs:74-75 | discovery succeeds if and only if every signature's `locate` succeeds, and it then holds their results in signature order |
| `AggregatorProperties.ScanFilesAreRegularUnderParent` | src/main.rs:34-43 | every member file of every installation was a `locate` hit, is a regular file, and lies directly in the installation's directory |
| `AggregatorProperties.ScanPartition` | src/main.rs:78-85 | no file belongs to two installations |
| `Summary.TotalSizeRemove` | src/main.rs:91-97 | the total size equals any installation's size plus the total of the rest, so the order of summation does not matter |
| `Summary.TotalSizeCovers` | src/main.rs:97 | every installation's size is at most the total |
| `Summary.Summarize` | src/main.rs:89-104 | the count is the number of registry keys, and the total is the sum of the `size` fields |
| `Detector.Detect` | src/main.rs:69-106 | a run over `CEF_FILES` fails with the first `locate` failure, or else reports the registry, its number of keys and its total size |
| `FormatSize.UnitIndexUnique` | src/main.rs:62-65 | at most one unit index fits a size |
| `FormatSize.FormatSize` | src/main.rs:58-67 | the loop ends with an index into the unit table. That index is the smallest k with size < 1024^(k+1), or 7 (YB) when there is none, and the returned number is the size in that unit, rounded down |
| `FormatSize.FormatSizeBoundaries` | src/main.rs:59-66 | 0 and 1023 give KB; 1024 and 2048 give MB (2048 is 2 MB); 1024^9 still gives YB |
| `DiskUsage.TrimStart` | src/main.rs:53 | the result is a suffix of the input, what was dropped is ASCII whitespace, and the result does not start with whitespace |
| `DiskUsage.TokenPrefix` | src/main.rs:53 | the result is the longest prefix of the input without ASCII whitespace |
| `DiskUsage.ParseU128` | src/main.rs:54 | a parsed number is below 2^128 |
| `DiskUsage.FirstTokenOf` | src/main.rs:53 | the first token of a token followed by whitespace, or by nothing, is that token |
| `DiskUsage.SizeFromOutput` | src/main.rs:50-55 | `disk_usage` after `du` has printed `output`; the definition is the model. Its contract: a size is below 2^128, and the missing-token panic happens exactly when the output is all ASCII whitespace. `SizeFromOutputRoundTrip` states that `du`'s own line reads back as its number |
| `DiskUsage.SizeFromOutputRoundTrip` | src/main.rs:50-55 | `du`'s output line `n<TAB>dir<LF>` yields `n` for every n below 2^128 |
| `DiskUsage.ParseU128Rejects` | src/main.rs:54 | a lone "+", the empty string, a '-' sign and a value of 2^128 or more are rejected |
| `DiskUsage.DecimalRoundTrip` | src/main.rs:54 | the decimal digits of n read back as n |
| `Scenario.ScenarioOneInstallation` | src/main.rs:69-106 | `a.bin` and `b.pak` found under /opt/app1, with `du` reporting 2048, give one installation at /opt/app1 holding both files with size 2048. The total is 2048, shown in MB |

## Left out

- Spawning `locate` and `du` and reading their pipes (src/main.rs:26-32, 51-52) are process I/O. The printed lines and the reported size are parameters. The panics of `spawn().unwrap()`, `output().unwrap()` and `line.unwrap()` on I/O errors are not modelled.
- The regular-expression matching of the `CEF_FILES` patterns is done by `locate` itself, so it is part of the `search` parameter.
- `Scan`: the sizes come from the `du` parameter as numbers. `disk_usage`'s own panic on output without a `u128` token (modelled by `DiskUsage.SizeFromOutput`) is not carried into the scan.
- `FormatSize`: models the unit choice and the scaled value rounded down, in exact arithmetic. The `u128 as f64` conversion and the `{:.2}` rendering are left out. `{:.2}` rounds to two decimals, so it can round up to the next integer: 1048575 gives `whole == 1023` in MB here, while the program prints "1024.00MB". The unit choice agrees with the `f64` loop for sizes below 2^53. Above that, rounding in the conversion can lift a value just under a power of 1024 up to it.
- `Summarize`: the total is an unbounded natural. The `u128` overflow of `total_size += app.size` (a panic in debug builds) is not modelled, since real sizes in KiB are far below 2^128.
- `Parent`: models `Path::parent` for the normalised absolute paths `locate` prints (everything before the last '/', or "/" for a file in the root). The normalisation of repeated separators, `.` components and trailing slashes is not modelled. `parent().unwrap()` cannot panic on a regular file, because "/" and "" are never regular files.
- The key order of the `BTreeMap` and the iteration order of each `HashSet` only affect printing. The registry is a plain map. The count and total do not depend on order (`TotalSizeRemove`).
- All `println!` output, including the per-installation listing and the final summary sentence.
