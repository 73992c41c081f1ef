# findMyFunction, verified model

`findMyFunction.cpp` scans the files of a directory for calls of the form
`myFunction("Tag identifier");` and writes one CSV row per call found. This
project models its text-mining core in Dafny and proves what that core
promises.

- **Scanner** (`scanner.dfy`, `processFile`). The model finds every
  occurrence of `myFunction` in a file's content, overlapping ones included,
  and cuts a window of at most 100 characters at each one. It runs the fixed
  pattern on that window and fills in a `FunctionCall` record from the match.
  The record's three text fields are then trimmed.
- **Pattern** (`pattern.dfy`). The pattern is
  `myFunction\s*\("\s*([a-zA-Z]+)\s+([^"]*)"\)\s*;`. It is written as a
  greedy parser (`ParseAt`) next to the language it accepts (`Derives`),
  with an unanchored leftmost search (`SearchFrom`), as `pcre2_match`
  performs it without options.
- **Trim** (`trim.dfy`). This is the in-place trim of each field over the
  set space, TAB, LF and CR.
- **Csv** (`csv.dfy`). This covers `escapeCSV`, the row and table layout,
  and a CSV reader used as the inverse of the writer.
- **Coordinator** (`coordinator.dfy`). This covers the `.java` filter, the
  `processFiles` worker loop, the 16-way shard arithmetic of `main`, and the
  merge of the workers' results into the shared list.
- **Text** (`text.dfy`). This holds the character classes and
  `std::string::find`.

The file system is a map from path to content; a path missing from the map
is a file that cannot be opened. The model's threads run one after the
other, in an order given as a parameter.

Behaviour of the code that the model keeps, as written:

- `("` and `")` must be adjacent. So `myFunction(  "Alpha beta"  ) ;` is
  not a call.
- The match is not anchored. A window whose own marker starts no call can
  still match a later `myFunction` inside the same 100 characters. Both
  markers then give the same record (`Scanner.DuplicateRecord`).
- `\s` covers space, TAB, LF, VT, FF and CR, while trimming strips only
  space, TAB, LF and CR.
- `escapeCSV` quotes a field only for a comma or a double quote. A field
  holding a line break is written unquoted.

## Model

| member | source | states |
|---|---|---|
| `Text.FindFrom` | findMyFunction.cpp:51 | `find` reports a position at or after the start where the pattern text occurs |
| `Text.FindFromFirst` | findMyFunction.cpp:51 | no occurrence lies between the start and the reported position, nor anywhere after the start when none is reported |
| `Trim.FirstNotTrimSpaceFinds` | findMyFunction.cpp:78 | `find_first_not_of` stops at the first character outside the trim set, or reports none when all are inside it |
| `Trim.LastNotTrimSpaceFinds` | findMyFunction.cpp:79 | `find_last_not_of` stops at the last character outside the trim set, or reports none when all are inside it |
| `Trim.TrimFieldShape` | findMyFunction.cpp:77-85 | the trimmed field is a slice with only trim characters around it; it is empty exactly when the field is all trim characters; otherwise it starts and ends outside the set |
| `Trim.TrimExact` | findMyFunction.cpp:77-85 | any slice bounded by maximal leading and trailing trim runs is the result: exactly those runs are removed and the interior is untouched |
| `Trim.TrimIdempotent` | findMyFunction.cpp:77-85 | trimming twice equals trimming once |
| `Trim.TrimKeeps` | findMyFunction.cpp:80-81 | a field with no trim character at either end is unchanged |
| `Trim.TrimAfterWord` | findMyFunction.cpp:75-85 | trimming `tag + " " + rest` trims only the end of `rest`, and drops the space when `rest` is empty |
| `Pattern.RunEndAllIn` | findMyFunction.cpp:117 | a greedy `cls*` steps only over characters of the class |
| `Pattern.RunEndUnique` | findMyFunction.cpp:117 | the greedy run ends at the first character outside the class, or at the end of the text |
| `Pattern.ParseAtSound` | findMyFunction.cpp:117 | whatever the matcher returns is a reading of the text in the pattern's language, with its groups where it says |
| `Pattern.ParseAtComplete` | findMyFunction.cpp:117 | any reading of the text as a call is found by the matcher, which differs from it only in taking the longest `\s+` before group 2 |
| `Pattern.ParseAtAccepts` | findMyFunction.cpp:117 | the matcher succeeds with a reading exactly when that reading is accepted (derivable, with group 2 starting outside `\s`) |
| `Pattern.AcceptsUnique` | findMyFunction.cpp:117 | two accepted readings at one start are equal: where a match starts decides its groups and end |
| `Pattern.MatchWellFormed` | findMyFunction.cpp:117 | a match starts with the marker and ends with `;`; group 1 is non-empty letters; group 2 has no quote and starts outside `\s`; both groups lie inside the match |
| `Pattern.SearchFromFound` | findMyFunction.cpp:58-59 | the unanchored search reports the match at the position it names |
| `Pattern.SearchFromLeftmost` | findMyFunction.cpp:58-59 | nothing matches before the reported position, nor anywhere when nothing is reported |
| `Pattern.SearchFromReaches` | findMyFunction.cpp:58-59 | the first matching position is the one reported |
| `Pattern.FindMatchWellFormed` | findMyFunction.cpp:58-62 | every ovector reported for a subject is well formed |
| `Pattern.LeftmostMatch` | findMyFunction.cpp:58-61 | a match with none before it is the one `pcre2_match` reports |
| `Pattern.MatchInSliceIsCall` | findMyFunction.cpp:54-59 | a match found in a substring is an accepted call of the whole text at the shifted position, ending inside the substring |
| `Pattern.CallInSliceIsMatch` | findMyFunction.cpp:54-59 | a call of the whole text that ends inside a substring is what the matcher finds in the substring |
| `Scanner.BaseNameShape` | findMyFunction.cpp:64 | the file name is the longest suffix of the path without `/` |
| `Scanner.WindowShape` | findMyFunction.cpp:53-54 | the window is `content[start..start + min(100, length - start)]`: in bounds, at most 100 characters, short only at the end of the content, and beginning with the marker when one starts there |
| `Scanner.RecordOfContent` | findMyFunction.cpp:62-75 | the record of a match takes `fullCall`, tag and identifier as slices of the content itself, at the ovector offsets shifted by the marker's position, with the argument built from the tag and the identifier |
| `Scanner.WindowSlice` | findMyFunction.cpp:67 | the window slice at given offsets equals the content slice at those offsets plus `start` |
| `Scanner.TrimmedFields` | findMyFunction.cpp:75-85 | on a match, trimming keeps the tag, cuts only the end of the identifier (empty only when it was), and gives the argument as the tag, a space and the trimmed identifier |
| `Scanner.RecordIsCall` | findMyFunction.cpp:52-87 | every record is the record of a call of the content that starts at or after its marker and ends inside the window |
| `Scanner.RecordShape` | findMyFunction.cpp:62-87 | every record has a call text that begins with `myFunction`, ends with `;` and fits in 100 characters; a non-empty tag of letters; a quote-free identifier without trim characters at its ends; and the argument built from the tag and the identifier |
| `Scanner.RecordOfLeftmostCall` | findMyFunction.cpp:52-87 | the leftmost call that starts at or after the marker and fits the window gives the record |
| `Scanner.CallRecordedAtItsMarker` | findMyFunction.cpp:51-87 | a call that starts at a marker and fits in its 100-character window is recorded from that marker |
| `Scanner.LongCallNotMatched` | findMyFunction.cpp:53-61 | a call longer than the window is not matched at the window's start |
| `Scanner.DuplicateRecord` | findMyFunction.cpp:51-89 | a marker with no fitting call before a later one gives the later call's record, the same record that later marker gives |
| `Scanner.MarkersFromComplete` | findMyFunction.cpp:51 | resuming `find` at `pos + 1` visits every occurrence of the marker, overlapping ones included |
| `Scanner.MarkersFromIncreasing` | findMyFunction.cpp:51 | occurrences are visited in increasing position |
| `Scanner.RecordsSound` | findMyFunction.cpp:61-87 | each collected record comes from one of the visited markers |
| `Scanner.RecordsComplete` | findMyFunction.cpp:61-87 | each visited marker whose window matches contributes its record |
| `Scanner.RecordAtMarker` | findMyFunction.cpp:52-88 | one loop iteration (window, match, record, trim) gives the record specified for that marker, or none |
| `Scanner.ProcessFile` | findMyFunction.cpp:35-93 | an unreadable file gives no records; otherwise the loop returns the scan of the content |
| `Scanner.ScanFromMarkers` | findMyFunction.cpp:49-90 | the scan keeps, in marker order, the record of every marker whose window matches |
| `Scanner.ScanNoMarker` | findMyFunction.cpp:49-51 | content without the marker gives no records |
| `Scanner.ScanRecordsAreCalls` | findMyFunction.cpp:49-92 | every record of a file is the record of a call that starts at or after a marker and ends inside that marker's window |
| `Scanner.ScanRecordsShaped` | findMyFunction.cpp:49-92 | every record of a file has the shape `RecordShape` states |
| `Scanner.ScanKeepsMarkerRecord` | findMyFunction.cpp:49-92 | every marker whose window matches has its record among the file's records |
| `Scanner.ScanFindsFittingCalls` | findMyFunction.cpp:49-92 | every call that fits in the window at its own marker is among the file's records |
| `Csv.EscapeCsv` | findMyFunction.cpp:22-33 | the loop returns the input unchanged when it has no `,` or `"`, and otherwise the input with every `"` doubled, in quotes; a CSV reader takes exactly the input back |
| `Csv.QuoteFound` | findMyFunction.cpp:26-28 | each replacement extends the doubled prefix past the quote found, and the search resumes right after the pair |
| `Csv.NoQuoteTail` | findMyFunction.cpp:26-29 | when the search finds no further quote, every quote has been doubled |
| `Csv.DoubleQuotesAppend` | findMyFunction.cpp:26-29 | doubling quotes distributes over concatenation |
| `Csv.ReadFieldEscaped` | findMyFunction.cpp:22-33 | a CSV reader takes the escaped field back off the front of a row, whatever follows it |
| `Csv.ParseRowRoundTrip` | findMyFunction.cpp:174-178 | escaping fields and joining them with commas is undone by a CSV reader: the same fields come back, in order |
| `Csv.RowLayout` | findMyFunction.cpp:174-178 | a row is the five escaped fields in header order, separated by commas and ended by LF |
| `Csv.RowRoundTrip` | findMyFunction.cpp:172-179 | a row ends with LF, and the rest reads back as the record's five fields |
| `Csv.WriteCsv` | findMyFunction.cpp:172-179 | the output is the header followed by one row per record, in order |
| `Coordinator.IsJavaIff` | findMyFunction.cpp:99 | a path is scanned exactly when its file name is longer than `.java` and ends with it |
| `Coordinator.ScanPath` | findMyFunction.cpp:99-101 | one iteration of the worker loop gives the path's contribution: the scan of a readable `.java` file, nothing otherwise |
| `Coordinator.FileResultsAt` | findMyFunction.cpp:98-101 | entry `i` of the per-path results is path `i`'s contribution |
| `Coordinator.SkippedPathsAddNothing` | findMyFunction.cpp:98-102 | a range of paths none of which is a readable `.java` file adds no records to the worker's list |
| `Coordinator.ConcatSplit` | findMyFunction.cpp:101 | the records of a range of paths are those of its two halves, in order |
| `Coordinator.OnlyJavaFiles` | findMyFunction.cpp:98-102 | every record collected comes from a readable `.java` path |
| `Coordinator.CollectRange` | findMyFunction.cpp:97-103 | the local list holds, in index order, the records of the `.java` paths from `startIdx` to `min(endIdx, n)` |
| `Coordinator.ProcessFiles` | findMyFunction.cpp:95-107 | the shared list gains exactly that concatenation at its end, and what it held before is unchanged |
| `Coordinator.ShardBounds` | findMyFunction.cpp:152-155 | each shard lies in `[0, n)`; shards 0 to 14 hold `n / 16` paths, the last also the `n % 16` left over |
| `Coordinator.ShardsContiguous` | findMyFunction.cpp:152-155 | shards follow each other without gap or overlap, from 0 to `n` |
| `Coordinator.ShardOfIff` | findMyFunction.cpp:152-155 | every index below `n` lies in shard `i` exactly when `i` is its one owner |
| `Coordinator.SmallInputLastShard` | findMyFunction.cpp:147-155 | with fewer than 16 paths, only the last shard is non-empty, and it holds them all |
| `Coordinator.MergedInOrder` | findMyFunction.cpp:153-158 | the first `k` workers in index order produce the records of every path up to the end of shard `k - 1` |
| `Coordinator.MergedAll` | findMyFunction.cpp:153-158 | the 16 workers in index order produce exactly the sequential scan of all paths |
| `Coordinator.MergedPermutation` | findMyFunction.cpp:105-106 | two orders of the same workers leave the same records in the list, each as often |
| `Coordinator.ScanDirectory` | findMyFunction.cpp:147-162 | in any order of the 16 workers, the list holds the records of the sequential scan, each as often; in index order it is that scan |

## Left out

- Console input of the directory, and the final console message
  (lines 110-112, 184-185), are I/O.
- File reading and the open-failure message (lines 37-47) are I/O. A file is
  an entry of a map, and an unreadable file is a missing entry.
- Directory enumeration and its exception path (lines 135-145) are
  filesystem I/O. The paths are a given sequence.
- Opening and writing `function_calls.csv` (lines 164-170, 181) is I/O.
  `Csv.WriteCsv` returns the text that would be written.
- Threads, `join`, the mutex and `lock_guard` are concurrency. Each
  worker's append is modelled as one atomic step, and the workers run one
  after the other in a given order.
- The `match_data` shared by all threads is a data race. It is not
  modelled: every match is computed on its own.
- PCRE2 itself is a foreign library and is not modelled. That covers
  compilation, match-data allocation and freeing, the error messages, and
  match limits. Only the meaning of the fixed pattern is modelled, and a
  failed match is treated as no match.
- `std::filesystem` `filename()` and `extension()` are library semantics,
  modelled in simplified form. The name is the text after the last `/`.
  The extension runs from the last `.` of the name. It is empty for a name
  whose only `.` is its first character, and for `.` and `..`.
- A `char` stands for one byte of a file. No encoding is modelled.
- `size_t` arithmetic is modelled with unbounded integers. None of the
  products in the shard bounds can overflow for a list that fits in memory.
- `Csv.RowRoundTrip`: a field holding a line break is written unquoted. The
  round trip is proved for a row taken as a whole string. It is not proved
  for a reader that splits the file into lines first, because such a field
  breaks the line structure.
- `Csv.WriteCsv`: the header line is the fixed string
  `Filename,Function Call,Argument,Tag,Identifier`. The model does not
  prove that a CSV reader splits it into those five column names.
