# py-ripgrep finder core, modelled in Dafny

This project models the decision logic of the py-ripgrep `Finder` (Rust, `src/lib.rs`).
The finder walks one or more root directories with the `ignore` crate, and then does one of two things:

- It lists every file (`find_files`).
- It searches every file with each registered regular expression (`search`). This returns, for each path with at least one match, the records `"{lineno} :: {text}"`.

The foreign parts of the program become parameters:

- The traversal is a `Walker`, which maps a walker configuration to the sequence of items the walker yields (entries or walker errors).
- Regex compilation is a `Compiler<M>`. `M` is the type of a compiled matcher.
- UTF-8 validation is a `Utf8Decoder`.
- What the grep searcher finds for one matcher in one file is a `Scan`. A `Scan` holds the matches delivered to the sink, in order, and an optional I/O error raised after them.

Modules:

- `Wrappers`: `Option` and `Result`.
- `Errors`: `FinderError`, bytes, and the UTF-8 decoder type.
- `Entries`: walker entries (directories, regular files, symlinks and every other kind of file) and the two entry predicates, `skip_git` and `is_dir`.
- `Numerals`: decimal rendering of line numbers.
- `Sink`: `ResultsSink::matched`, and `search_path` driving the sink.
- `Needles`: `Needle::new` and `add_regex`.
- `Results`: `Results::add_file` and `Results::update`, plus their fold.
- `Finder`: `build_walker`, `find_files_without_match`, `find_files` and `search`.
- `Scenarios`: one concrete search, worked through.

Behaviour of the code worth knowing, all of it modelled:

- Matches are not sorted by line number. A file's records come needle by needle, in registration order. Within one needle they come in the order the searcher delivers them.
- Paths are not deduplicated. If an entry appears twice, its path is listed twice. In the path→records map, the last non-empty sink for a path wins, because a `HashMap` insert overwrites.
- When one match's bytes are not UTF-8, the sink's error ends that needle's search of the file. Later matches of that needle in that file are lost, and the other needles still run.
- In `search`, an I/O error does not abort the run. It is printed, and the matches recorded before it stay.
- A missing line number is likewise only printed; it does not abort the run.
- `search` with no registered needle returns an empty map.
- In `search`, walker errors are skipped. In `find_files`, the first walker error panics (`unwrap`), and the model records this as `Panicked(cause)`.
- `find_files` lists only paths that are valid UTF-8. `search` keys its results by the lossy rendering of the path, so it also reports files whose paths are not UTF-8.
- An I/O error inside `search_path` surfaces as `FinderError::Unknown(text)`. The sink's error type overrides only `SinkError::error_message` (src/lib.rs:37-41), and the searcher's default `error_io` forwards to it.
- The recorded text is the matched bytes as the searcher hands them over, including the line terminator when there is one.

## Model

| member | source | states |
|---|---|---|
| Entries.SkipGit | src/lib.rs:276-294 | The filter rejects an entry exactly when its type is unknown, or when it is a directory named `.git`. Everything else is kept. |
| Entries.IsDir | src/lib.rs:146-151 | An entry is skipped by the folds exactly when it is a directory or its type is unknown. Every other kind (regular file, symlink, FIFO, socket, device) gets through. |
| Entries.FilterRejectsOnlySkippedEntries | src/lib.rs:276-294 | Every entry the walker filter rejects is one that `is_dir` would skip anyway. |
| Entries.FilterKeepsEveryFile | src/lib.rs:279-292 | Every non-directory of known type passes the filter, including a file or symlink named `.git`. |
| Numerals.ToDecimal | src/lib.rs:105 | `{lineno}` renders as a non-empty string of decimal digits with no leading zero. |
| Numerals.DecimalRoundTrip | src/lib.rs:105 | Reading back a rendered line number gives the number. |
| Numerals.ToDecimalInjective | src/lib.rs:105 | Distinct line numbers render as distinct strings. |
| Sink.NewSink | src/lib.rs:80-86 | A fresh sink is keyed by the entry's lossy path and holds no records. |
| Sink.FormatMatchRoundTrip | src/lib.rs:105 | A record `"{lineno} :: {text}"` parses back into exactly that line number and text. |
| Sink.FormatMatchInjective | src/lib.rs:105 | Two records are equal only when their line numbers and texts are equal. |
| Sink.Record | src/lib.rs:105 | The record for an accepted match reads back as the match's line number and decoded text. |
| Sink.Matched | src/lib.rs:94-107 | Invalid UTF-8 gives a `Utf8` error and nothing is pushed. This is checked first. A missing line number gives `Unknown("line numbers not configured")` and nothing is pushed. Otherwise exactly one record is appended, it reads back as (lineno, text), and the result is `Ok(true)`. The sink's path never changes. |
| Sink.Deliver | src/lib.rs:219-223 | Feeding matches to the sink in order keeps the earlier records. It appends the records of the matches before the first rejected one. It returns that match's rejection error, or `Ok(true)` when all are accepted. |
| Sink.SearchPath | src/lib.rs:219-226 | One `search_path` appends to the sink exactly the records of the matches before the first rejected one. It succeeds exactly when every delivered match was accepted and no I/O error followed. |
| Needles.NewNeedle | src/lib.rs:137-144 | `Needle::new` succeeds exactly when the pattern compiles. It keeps the pattern text and its matcher. A compile error becomes `FinderError::Grep`. |
| Needles.AddRegex | src/lib.rs:248-251 | On a compile error, the needle list is unchanged and the error is returned. On success, the old list is a prefix of the new one, the new needle sits at the end, and the returned value is the new length. |
| Needles.RegisterAllAppendsCompiled | src/lib.rs:248-251 | Registering patterns one after another appends exactly the needles of the patterns that compile, in registration order. |
| Needles.RegisterAllIsAppendOnly | src/lib.rs:248-251 | Registration never removes or reorders needles: the earlier list is a prefix of the later one. |
| Results.AddFile | src/lib.rs:65-67 | `add_file` appends the path, leaves the map untouched, and keeps the results consistent. |
| Results.Update | src/lib.rs:69-76 | A sink without records changes nothing. Otherwise its path is appended and the map gains that key with exactly the sink's records. No other key changes. Consistency is kept: every mapped path has records and is listed. |
| Results.UpdateAll | src/lib.rs:69-76 | Folding `update` lists exactly the paths of the non-empty sinks, in order. If every sink is empty, nothing changes. Consistency is preserved. |
| Results.UpdateAllLastWriteWins | src/lib.rs:73 | After the fold, a path maps to the records of the last non-empty sink for that path. A path with no such sink keeps its earlier entry, or stays absent. |
| Finder.BuildWalker | src/lib.rs:179-191 | The walker is built on the first root, and the remaining roots are added in order. Standard filters are on, hidden entries are not excluded, and the entry filter is `skip_git`. At least one root is required. |
| Finder.ListedPaths | src/lib.rs:155-167 | A path is listed exactly when some walker entry that is not a directory has that valid UTF-8 path. |
| Finder.FindFilesWithoutMatch | src/lib.rs:153-169 | The fold panics with the first walker error, if there is one. Otherwise it appends the listed paths, in walker order, and adds nothing else. |
| Finder.FindFiles | src/lib.rs:193-200 | `find_files` returns exactly when the walk has no errors. It then lists exactly the walk's listed paths, and its map is empty. |
| Finder.ListedPathsConcat | src/lib.rs:155-168 | Listing a concatenated walk lists each part in turn. Order is kept and duplicates are not merged. |
| Finder.ListedPathsAreFiles | src/lib.rs:157-159 | Every listed path belongs to an entry of the walk whose type is known and is not a directory. |
| Finder.SearchNeedles | src/lib.rs:217-229 | One shared sink per file gathers the records of every needle, needle after needle in registration order. A failing needle keeps what it recorded and does not stop the later needles. |
| Finder.AllHitsConcat | src/lib.rs:218-227 | The records for a longer needle list are the records of the earlier needles followed by those of the later ones. |
| Finder.FileSinks | src/lib.rs:212-230 | Every per-file sink comes from a walker entry that is not a directory. It is keyed by that entry's lossy path and holds that entry's records from all needles. |
| Finder.SearchWalkIsUpdateAll | src/lib.rs:212-231 | The search loop is `update` folded over the final sinks of the searched entries, in walker order. |
| Finder.FileSinksConcat | src/lib.rs:212-231 | Searching a concatenated walk searches each part in turn. |
| Finder.FileSinksSkipWalkError | src/lib.rs:213 | A walker error yields no sink. |
| Finder.SearchSkipsWalkErrors | src/lib.rs:212-231 | Removing a walker error from anywhere in the walk leaves the search result unchanged. |
| Finder.FileSinksWithoutNeedles | src/lib.rs:218-229 | With no needles registered, every per-file sink stays empty. |
| Finder.Search | src/lib.rs:204-233 | `search` always returns `Ok`. Its result is consistent: every mapped path has records and is listed. It lists exactly the paths of the searched entries with records, in walker order. With no needles, both the list and the map are empty. |
| Finder.SearchMapsLastEntry | src/lib.rs:229 | A path is in the search map exactly when some searched entry with that path has records. It then maps to the records of the last such entry. |
| Finder.SearchListsOnlyMatchedFiles | src/lib.rs:212-230 | Every path `search` lists is the lossy path of an entry of the walk whose type is known and is not a directory, and for which some needle recorded a match. |
| Scenarios.OneNeedleTwoLines | src/lib.rs:94-107 | For one needle "foo" whose matches are lines 1 and 3 (foo, bar, foo), the file's records are `"1 :: foo\n"` and `"3 :: foo"`, in that order. |

## Left out

- The PyO3 binding layer: the `Finder` class, its constructor, `#[pymethods]`, the module registration, and the `FinderError`→`PyIndexError` conversion. These are host-runtime glue. `add_regex` is modelled on the needle list alone.
- Directory traversal and ignore-file resolution by the `ignore` crate. The walker is the parameter `Walker`. The model does not show that `skip_git` prunes everything beneath a `.git` directory, or that root entries are never filtered. Both are the crate's behaviour, not the finder's.
- Regex compilation and line matching (`RegexMatcher`). These are the parameters `Compiler<M>` and `Scan`.
- File reading and NUL binary detection by the grep searcher. A `Scan` is assumed to be already cut off where binary detection quit.
- The searcher's handling of a sink returning `Ok(false)`. This sink never returns it.
- `to_string_lossy` and `to_str`. They are given with each entry as `lossyPath` and `utf8Path`.
- The entry's file name is a plain string. A non-UTF-8 name is assumed to differ from `.git`.
- The `eprintln!` diagnostic in `search`. The model discards the outcome of each `search_path`.
- The Display texts of the errors, except the fixed message "line numbers not configured".
- Integer widths. Line numbers (`u64`) and the needle count (`usize`) are unbounded naturals.
- `py_rust/__init__.py` and the example scripts. These are thin Python wrappers with no logic of their own.
