# Asset minifier: a Dafny model

`bin/minify_assets.py` minifies front-end assets. A configuration maps glob
patterns to settings objects. `Minifier.minify` resolves every pattern to the
regular files it matches and picks a minifier for each file by its extension:
`rjsmin` for `js`, `rcssmin` for `css`, and `htmlmin` for both `html` and
`jinja2`. It skips files whose names already end in `.min.<ext>`. The selected
files go into a table keyed by path, where the last match decides the minifier
and the settings. The script then runs `_execute` on every entry, in the order
in which the paths were first matched.

`_execute` reads the file and stops at once if the file is empty. Otherwise it
minifies the text and chooses a target: the file itself when `in_place` is set,
and `<stem>.min.<ext>` otherwise. It computes the size ratio in tenths of a
percent and writes the output to the target.

The model has seven modules:

- `Wrappers`: `Option` and `Result`.
- `Strings`: Python's `rfind`, `endswith` and POSIX `os.path.basename`.
- `Minifier`: the handler table, `_ext`, the `.min.<ext>` guard, `_find_files` and the derived output name.
- `TaskTable`: the `tasks` dict, as an insertion order plus a map.
- `Selection`: how the `tasks` table follows from the configuration: which pattern's settings a path keeps, and the order of the paths.
- `Execution`: `_execute` and the second loop of `minify`. They appear as specification functions (`ExecuteSpec`, `RunTasks`) and as methods of the class `Disk`, whose `files` field is the filesystem they update.
- `Scenarios`: concrete and small symbolic cases.

The filesystem is a map from the paths of regular files to their text, so
`os.path.isfile(p)` is `p in files`. `glob` is a parameter mapping a pattern to
its matches, in the order `glob` returns them. The three minifiers are
uninterpreted total functions from text to text. A settings object is a map
from key to the truth value Python gives its JSON value.

Two details of the code that the model keeps:

- The sizes in the report are `len(str)` of the text read, which counts characters, not bytes. The model counts characters too.
- When `_ext` returns `None`, the guard string is `.min.None`, because that is how an f-string renders `None` (`ExtText`). Such a path is never selected anyway, since `None` has no handler.

## Model

| member | source | states |
|---|---|---|
| `Strings.LastIndex` | bin/minify_assets.py:64 | `rsplit(".", 1)` splits at the last dot: there is none iff the character does not occur; otherwise the index holds the character and nothing after it does |
| `Strings.EndsWith` | bin/minify_assets.py:72 | `str.endswith(suffix)`: the suffix is no longer than the text and equals its last characters; `EndsWithTrans`, `EndsWithConcat` and `EndsWithCancel` state how it composes |
| `Strings.Basename` | bin/minify_assets.py:60 | the base name ends the path, contains no `/`, and is preceded by a `/` when it is not the whole path |
| `Minifier.Lookup` | bin/minify_assets.py:31-36 | a handler exists exactly for `js`, `css`, `html`, `jinja2` (case-sensitive); `js` gives the script minifier, `css` the style minifier, and both `html` and `jinja2` give the HTML minifier |
| `Minifier.Apply` | bin/minify_assets.py:90 | `handler(content)`: the script, style or HTML minifier, each an uninterpreted function of the text |
| `Minifier.ExtOfName` | bin/minify_assets.py:60-64 | the name part of `_ext`: the text after the last `.` of the base name, or None when it has no dot; `ExtOfNameSpec` states its properties |
| `Minifier.ExtOfNameSpec` | bin/minify_assets.py:60-64 | an extension exists iff the base name contains a dot; it contains no dot or slash, and the base name and path end with `.` + extension |
| `Minifier.Ext` | bin/minify_assets.py:56-64 | `_ext`: None for a path that is not a regular file, otherwise `ExtOfName`; `ExtSpec` states its cases |
| `Minifier.ExtSpec` | bin/minify_assets.py:56-64 | `_ext` is None iff the path is not a regular file or its base name has no dot; otherwise it is the text after the last dot |
| `Minifier.ExtOfNameOf` | bin/minify_assets.py:60-64 | `<stem>.<e>` with `e` free of dots and slashes has extension `e`, whatever dots `stem` contains |
| `Minifier.ExtIgnoresDirectories` | bin/minify_assets.py:60 | dots in directory names do not count: the extension of `d/f` is that of `f` |
| `Minifier.Classify` | bin/minify_assets.py:70-77 | a match is selected iff it is a regular file with a handled extension that does not end in `.min.<ext>`; the chosen handler is the table's entry for that extension |
| `Minifier.MinGuard` | bin/minify_assets.py:72-73 | `<stem>.<e>` ends in `.min.<e>` exactly when `stem` ends in `.min` |
| `Minifier.ClassifyDotted` | bin/minify_assets.py:67-79 | the complete selection rule for a name `<stem>.<e>`: selected with `handlers[e]` iff it is a file, `e` is handled and `stem` does not end in `.min` |
| `Minifier.FindInMatches` | bin/minify_assets.py:69-79 | the inner loop of `_find_files`: the selected matches of one pattern, in `glob` order, once per occurrence; `FindInMatchesMembers` states which triples occur |
| `Minifier.FindInMatchesMembers` | bin/minify_assets.py:69-79 | a triple is yielded for one pattern iff its path is a match, its settings are the pattern's, and its handler is the one `Classify` picks |
| `Minifier.FindFiles` | bin/minify_assets.py:67-79 | `_find_files`: the triples of each pattern in configuration order, joined; `FindFilesMembers`, `Selection.LastPatternWins` and `Selection.TableOrder` state what follows |
| `Minifier.FindFilesMembers` | bin/minify_assets.py:67-79 | a triple is yielded iff some pattern matches its path with those settings and `Classify` picks its handler |
| `Minifier.Target` | bin/minify_assets.py:92-93 | in place, the target is the source path itself |
| `Minifier.TargetFrame` | bin/minify_assets.py:94 | the target of a file depends on the filesystem only through that file being a regular file |
| `Minifier.DerivedName` | bin/minify_assets.py:94-95 | `re.sub(f"\\.{ext}$", f".min.{ext}", target)`: a trailing `.<ext>` becomes `.min.<ext>`, and a path without that suffix is kept; `DerivedNameShape`, `DerivedNameRejected` and `DerivedNameInjective` state its properties |
| `Minifier.TargetOutOfPlace` | bin/minify_assets.py:92-95 | out of place, a file with extension `e` ends with `.e`, and its target is everything before that suffix followed by `.min.e` |
| `Minifier.TargetOfDotted` | bin/minify_assets.py:94-95 | out of place, `<stem>.<e>` is written to `<stem>.min.<e>` |
| `Minifier.DerivedNameShape` | bin/minify_assets.py:94-95 | the derived name keeps extension `e` and ends with `.min.<e>` |
| `Minifier.DerivedNameRejected` | bin/minify_assets.py:72-73 | a derived output name is never eligible, so a later run never selects it, whatever the filesystem then holds |
| `Minifier.DerivedNameInjective` | bin/minify_assets.py:94-95 | two paths with extensions that share a derived name are the same path |
| `Minifier.TargetsApart` | bin/minify_assets.py:92-95 | for two distinct selected files, the first's target is never the second source, and their targets differ |
| `TaskTable.Put` | bin/minify_assets.py:50 | `tasks[path] = ...` keeps the table well formed and sets exactly that entry; an existing key keeps its position, and a new key goes last |
| `TaskTable.Tabulate` | bin/minify_assets.py:48-50 | the table built from the triples is well formed: distinct keys, listed exactly once |
| `TaskTable.Items` | bin/minify_assets.py:52 | `tasks.items()` has one pair per key, in key order, each with the key's stored task |
| `TaskTable.TabulateHasPaths` | bin/minify_assets.py:48-50 | every path of a triple is a key of the table |
| `TaskTable.TabulateOnlyPaths` | bin/minify_assets.py:48-50 | every key of the table is the path of some triple |
| `TaskTable.TabulateLastWins` | bin/minify_assets.py:48-50 | the entry stored for a path is the one from the last triple for that path |
| `TaskTable.TabulateFirstOrder` | bin/minify_assets.py:48-52 | every key has a first match, and keys are listed in strictly increasing order of their first match |
| `Selection.PatternOf` | bin/minify_assets.py:68-69 | the first pattern, in configuration order, whose matches include the path, or none |
| `Selection.IndexOf` | bin/minify_assets.py:69 | the first place of the path in one pattern's `glob` order, or none |
| `Selection.TableKeys` | bin/minify_assets.py:48-79 | a path is a key of `tasks` iff it is selected and some pattern matches it |
| `Selection.LastPatternWins` | bin/minify_assets.py:48-79 | the entry stored for a path has the handler of its extension and the settings of a pattern matching it, and no later pattern matches it |
| `Selection.TableOrder` | bin/minify_assets.py:48-79 | the keys of `tasks` are ordered by their first match: the first pattern matching each path, then its place in that pattern's `glob` order |
| `Execution.BuildTable` | bin/minify_assets.py:48-50 | the first loop of `minify` builds exactly the table `Tabulate` describes |
| `Execution.InPlaceArg` | bin/minify_assets.py:82 | binding `**settings` fails with `UnexpectedKeyword` iff some key other than `in_place` is present; otherwise `in_place` is true iff it is given a true value |
| `Execution.Tenths` | bin/minify_assets.py:97 | `int(1000 * len(minified) / len(content))` on a non-empty source; `TenthsFloor` states that it rounds down |
| `Execution.TenthsFloor` | bin/minify_assets.py:97 | `Tenths` is the floor of the exact ratio in tenths of a percent: `t*n <= 1000*m < (t+1)*n` (the source's float division can round up to the next integer on huge texts; see Left out) |
| `Execution.ExecuteSpec` | bin/minify_assets.py:82-102 | `_execute` as the filesystem after the call and the report or exception; `ExecuteOutcomes` and `ExecuteWrites` state its cases, and `Disk.Execute` is proved equal to it |
| `Execution.ExecuteOutcomes` | bin/minify_assets.py:82-102 | `_execute` raises iff the settings do not bind or the path is no regular file, and then writes nothing; settings that do not bind raise `UnexpectedKeyword` even when the path is missing, because binding comes before the read; an empty file, exactly when settings bind and the file is empty, is reported and writes nothing |
| `Execution.ExecuteWrites` | bin/minify_assets.py:90-102 | a written report comes from a non-empty file; it names the derived target, which alone changes and now holds the minified text, and it carries both lengths and their tenths |
| `Execution.StepOfRunnable` | bin/minify_assets.py:82-102 | a file whose settings bind is executed successfully; an empty file gives an empty-file report and no write; otherwise exactly its target is written with the minified text, and the report is `Written` with that target, both lengths and their tenths |
| `Execution.RunTasks` | bin/minify_assets.py:52-53 | the second loop of `minify`: execute the items in order and stop at the first exception; `RunCompletes` and `RunStopsAtBadKeyword` state what it does, and `Disk.RunItems` is proved equal to it |
| `Execution.OtherItemUnaffected` | bin/minify_assets.py:92-102 | executing one selected file leaves another selected file's content and target unchanged |
| `Execution.RunCompletes` | bin/minify_assets.py:52-53 | over distinct selected files whose settings bind, the run reports every file in order, each empty source as empty and each other source as `Written` with its target, both lengths and their tenths computed from the text the run started with; it writes each such source's minified original text to its target, and changes no other path |
| `Execution.RunStopsAtBadKeyword` | bin/minify_assets.py:52-53 | a file whose settings hold an unexpected key ends the run with `UnexpectedKeyword`; the run is that of the files before it, whose reports and writes stay, followed by the error |
| `Execution.SelectedItemsRunnable` | bin/minify_assets.py:48-53 | the first `k` items of the `tasks` table, when their settings bind, are distinct selected files |
| `Execution.MinifyCompletes` | bin/minify_assets.py:39-53 | when the settings of every entry the `tasks` table keeps bind, `minify` completes as `RunCompletes` describes; settings of patterns that select nothing, or whose files a later pattern matches again, play no part |
| `Execution.MinifyStopsAtBadKeyword` | bin/minify_assets.py:39-53 | when the `k`-th entry of `tasks` is the first whose settings do not bind, `minify` raises `UnexpectedKeyword` there, after the first `k` entries ran as `RunCompletes` describes, and keeps what they wrote |
| `Execution.Disk.Execute` | bin/minify_assets.py:82-102 | the imperative `_execute` leaves exactly the filesystem and outcome that `ExecuteSpec` gives, whose cases `ExecuteOutcomes` and `ExecuteWrites` state |
| `Execution.Disk.Advance` | bin/minify_assets.py:52-53 | one iteration executes the next item: it either records the error that ends the run or appends the item's report, and the remaining run is that of the later items |
| `Execution.Disk.RunItems` | bin/minify_assets.py:52-53 | the second loop of `minify` leaves the filesystem, log and error that `RunTasks` specifies |
| `Execution.Disk.Minify` | bin/minify_assets.py:48-53 | `minify` leaves the filesystem, log and error of running the table built from `FindFiles` |
| `Scenarios.DotfileExample` | bin/minify_assets.py:56-64 | a hidden file `.<e>`, such as `.bashrc`, has extension `<e>` |
| `Scenarios.TrailingDotExample` | bin/minify_assets.py:56-64 | a name ending in a dot, such as `foo.`, has the empty extension |
| `Scenarios.LookupExamples` | bin/minify_assets.py:31-36 | `JS` has no handler, `jinja2` has the HTML minifier, and None has none |
| `Scenarios.LastWinsExample` | bin/minify_assets.py:48-50 | triples for `p`, `q`, `p` give the table `[p, q]`, with `p` holding its later task |
| `Scenarios.OverlapExample` | bin/minify_assets.py:48-79 | when two patterns match the same selected file, the table keeps the second pattern's settings |
| `Scenarios.OverlapInPlace` | bin/minify_assets.py:39-93 | a first pattern with `in_place` false and a second with `in_place` true make the shared file be minified in place |
| `Scenarios.UnusedBadSettings` | bin/minify_assets.py:39-53 | a pattern with an unexpected keyword that matches nothing gives an empty run with no exception |
| `Scenarios.TenthsExamples` | bin/minify_assets.py:97 | 567 of 1000 gives 567 tenths, and 2 of 3 gives 666 |
| `Scenarios.KeywordExamples` | bin/minify_assets.py:82 | `inplace` is an unexpected keyword; `in_place: false` and no settings both mean not in place |
| `Scenarios.EmptyExample` | bin/minify_assets.py:86-88 | an empty source gives an empty-file report and leaves the filesystem unchanged |
| `Scenarios.SelectsOnlySource` | bin/minify_assets.py:67-79 | when a pattern matches `<stem>.<e>` and `<stem>.min.<e>`, only the source is yielded |
| `Scenarios.EndToEndExample` | bin/minify_assets.py:39-102 | with `<stem>.<e>` and an older `<stem>.min.<e>` on disk, one run minifies the source alone and overwrites the older output |

## Left out

- Reading the configuration is not modelled: argument parsing (the parser built at lines 15-21), JSON decoding and `main` (lines 105 onward) are out. The model starts from the instructions in document order. Settings values are reduced to their truth value.
- Non-object settings are not modelled. In the source, a settings value that is not a JSON object fails only when one of its pattern's files survives into the `tasks` table. It then fails in the second loop, when `**settings` is bound, after the earlier files were written.
- Minifier.TargetsApart, Execution.OtherItemUnaffected, Execution.RunCompletes: paths are compared as strings, so the model takes one spelling per file. Two spellings of one file, such as `static/a.js` and `./static/a.js` from patterns `static/*.js` and `./static/*.js`, are two keys in the source too, but there they share one file. So the second task may read the first one's output, and the targets may coincide. The model does not cover `./`, `..`, doubled `/`, hard links or case-insensitive names.
- Filesystem I/O is a map. Failures of the write, directories, symbolic links and encodings are not modelled. A read fails only when the path is no regular file (`ReadFailed`).
- `glob` is a parameter. Pattern syntax and the order of its matches are whatever that function gives.
- The three minifier libraries are uninterpreted functions, with no exceptions and no algorithm.
- Printing is not modelled. A report records the sizes and the tenths instead of the printed line, and the one-decimal float rendering (`/ 10.0`) is not modelled.
- Execution.Tenths: does not model the floating-point division in `int(1000 * m / n)`. It is computed as exact integer division. Python's `int / int` is correctly rounded, so when the exact quotient lies within half a float step below an integer, `int(...)` gives that integer, one above the floor. They can differ once `1000 * len(minified)` reaches about 2^53, that is, texts of about 9·10^12 characters.
- Minifier.DerivedName: models `re.sub(f"\\.{ext}$", ...)` as replacing a trailing `.<ext>`. It does not model that `$` also matches before a final newline, or that `ext` is read as a regular expression. Only the four handled extensions reach `_execute`, and none of them contains regular-expression metacharacters.
- Execution.InPlaceArg: the `TypeError` raised for an unexpected keyword is modelled as `UnexpectedKeyword`, without the key's name.
- Python's dict is modelled by `TaskTable.Table`, and the instructions as a sequence. A sequence may repeat a pattern, which a JSON object cannot, so the model covers more inputs than the source receives.
