# pyproteum in Dafny

pyproteum is a Python adapter for ProteumIM, a mutation-testing tool for C programs
that is driven from the command line. The adapter has two parts, and this project
models both.

- **Report reader** (`ProteumReport`). `load_general` reads a ProteumIM report line by
  line.
  - The header has a fixed layout. Each labelled field is the last whitespace token of
    its line (lines 3, 5, 7, …, 17, counting from 0). The lines in between are skipped
    by position.
  - The operator table starts at line 20. Every row of 3, 5 or 7 tokens contributes 1,
    2 or 3 `name count` pairs. These pairs fill the `operators` dictionary and the
    `ordered_op_keys` list.
  - The first line of any other width ends the table: a blank line, the end of the
    file, or a row of 1, 2, 4, 6, 8 or more tokens.
  - `str_ops` renders the table three entries per line.
- **Command adapter** (`Proteum`). Each command method builds the command line of a
  ProteumIM tool (`test-new`, `muta-gen`, `tcase`, `exemuta`, `report`). Two methods
  differ in what they do with it: `test_new` echoes and runs its line directly, with no
  session check and no redirection, and `exemuta_select` raises before running anything.
  Every other method passes its line to `exec_command`.
  - Each builder starts from a fixed subcommand and appends optional flags in a fixed
    order. A flag is appended only when its parameter is set.
  - `exec_command` runs `command session` through the shell for the explicit session,
    or else for the ambient one. It appends `>> file` when the adapter has an output
    file. With an empty session it prints a diagnostic instead of running anything.

## Modules

- `Wrappers` (wrappers.dfy) holds `Option` and `Result`.
- `Text` (text.dfy) holds the Python string operations the code relies on:
  - `str.split()` with Python's whitespace set;
  - `strip`, `' '.join`, `int()`, `str(int)` and the `float()` token syntax;
  - `%-15s` and `%5d` padding;
  - the facts about splitting that the command-line lemmas use.
- `ReportFormat` (report_format.dfy) is the report layout and the functional
  specification of `load_general`.
  - `Parse` reads lines to a `Summary` or to the `LoadError` of the line that raised.
  - `ParseHeader` reads the header and `ScanTableAt` reads the table.
- `OpsLayout` (ops_layout.dfy) is the specification of `str_ops`: the entries, in key
  order, with a break after every third.
- `ProteumReport` (report_class.dfy) is the report handler as a class.
  - `LoadGeneral` reads the header and then runs the table loop. It assigns into the
    `operators` map and appends to the `orderedOpKeys` sequence.
  - `StrOps` is the rendering loop.
  - Each is proved against the functions above.
- `CommandLine` (command_line.dfy) describes a builder's optional arguments as a list
  of `Arg` declarations:
  - whether the argument is appended, its flag, and its value;
  - the text each builder appends (`Render`), the flags that appear (`Flags`), and the
    words the shell sees (`Words`);
  - the proof that splitting the rendered text gives those words.
- `Operators` (operators.dfy) is `Proteum.operators`: the fixed list of 108 operator
  names and the prefix filter over it.
- `Commands` (commands.dfy) holds the command builders as functions, `exec_command`'s
  decision (`Exec`), and lemmas on the flags and words of every command.
- `Proteum` (proteum.dfy) is the adapter class. It holds the output file, the two
  directories and the ambient session. The setters build no command. `TestNew` runs its
  line directly, and `ExemutaSelect` always raises. Every other command method resolves
  the session and runs its builder's command through `Exec`.

What a command does is an `Invocation`:

- `Executed(echo, shell)`: the line echoed, then the shell line run;
- `Skipped(echo)`: only the diagnostic is echoed;
- `Crashed(fault)`: the Python code raises.

The session attribute does not exist until `set_session` or `test_new` assigns it.
The model reads that state as `session == None`. Reading the attribute then raises
AttributeError, which the model gives as `Crashed(SessionUnset)`.

Notes on the code's behaviour, which the model follows:

- An empty session is skipped with a diagnostic, but a session that was never
  assigned makes the code raise.
- `set_bin_dir` takes effect: `test_new` prefixes the tool name with the binary
  directory. `set_interface_dir` stores `""` whatever it is given.
- `exemuta_select` never composes a `-select` command. It always raises, because it
  passes a keyword `x` that `exemuta` does not accept.
- The operator list holds `'-I-CovAllNod'` with a leading dash.
- `muta_gen` runs the operator string as it builds it, with the `-O` file name run
  together with the first operator entry (see Findings).

## Model

| member | source | states |
|---|---|---|
| ReportFormat.LastToken | pyproteum/ProteumReport.py:22 | `line.strip().split()[-1]`: fails with IndexError exactly when the line has no token, else is the last token of `split()` (a single word) |
| ReportFormat.Count | pyproteum/ProteumReport.py:30 | `int(tok)` succeeds exactly when the token is an optionally signed decimal integer, with that value; else ValueError on that line |
| ReportFormat.LastCount | pyproteum/ProteumReport.py:30-46 | a count line's value: IndexError without tokens, ValueError when the last token is not an integer, else its integer value |
| ReportFormat.ReadField | pyproteum/ProteumReport.py:22-50 | one labelled line read as text, through `int()` or through `float()`: succeeds exactly when the line is usable, with its last token's value, else with that line's error |
| ReportFormat.ReadFieldAt | pyproteum/ProteumReport.py:22-50 | the same for the labelled line of a report, a line past the end reading as `""` |
| ReportFormat.ReadFields | pyproteum/ProteumReport.py:18-50 | the labelled lines read in order: one value per field, of the field's kind |
| ReportFormat.ReadFieldsSuccess | pyproteum/ProteumReport.py:18-50 | reading succeeds exactly when every labelled line is usable, each value being that line's |
| ReportFormat.ReadFieldsFailure | pyproteum/ProteumReport.py:18-50 | a failing read carries the error of the first unusable labelled line, all earlier ones usable |
| ReportFormat.ReadFieldsFailsAt | pyproteum/ProteumReport.py:18-50 | with usable lines before field k and an unusable field k, the read fails with k's error |
| ReportFormat.ParseHeader | pyproteum/ProteumReport.py:18-53 | a successful header holds single-word program, source file and score; a failure names a labelled line |
| ReportFormat.ParseHeaderSpec | pyproteum/ProteumReport.py:18-53 | the header is read exactly when all eight labelled lines are usable: program from line 3, source file from 5, the counts from 7, 9, 11, 13, 15, the score from 17; otherwise the load fails with the first unusable line's error and no partial header |
| ReportFormat.HeaderOfFields | pyproteum/ProteumReport.py:18-53 | with every labelled line usable, the header is made of exactly their values |
| ReportFormat.HeaderErrorLine | pyproteum/ProteumReport.py:18-50 | a failing header read names one of the labelled lines |
| ReportFormat.FieldsReadOnlyTheirLines | pyproteum/ProteumReport.py:18-53 | two inputs that agree on the labelled lines give the same header read |
| ReportFormat.HeaderReadsFieldLines | pyproteum/ProteumReport.py:18-53 | lines 0-2, 4, 6, …, 16, 18, 19 never affect the header, whatever they hold |
| ReportFormat.RowCounts | pyproteum/ProteumReport.py:67-78 | a failing row fails with ValueError on its own line |
| ReportFormat.RowCountsSpec | pyproteum/ProteumReport.py:67-78 | a row of n ∈ {3,5,7} tokens gives exactly (n-1)/2 pairs, pair k being token 2k+1 with the value of token 2k+2; it fails exactly when one of those counts is not an integer; token 0 is unused |
| ReportFormat.TableLength | pyproteum/ProteumReport.py:59-63 | the table is the longest run of rows of width 3, 5 or 7 at the front; the line after it is not one |
| ReportFormat.Names | pyproteum/ProteumReport.py:68-78 | one key per extracted pair |
| ReportFormat.ScanTableAt | pyproteum/ProteumReport.py:56-80 | a failing table scan names a line of the table |
| ReportFormat.ScanTableErrorLine | pyproteum/ProteumReport.py:59-80 | a scan starting at line `l` fails only on a line at or after `l` |
| ReportFormat.ScanTableSucceeds | pyproteum/ProteumReport.py:59-80 | the table scan (`ScanTable`, the table loop as a function) succeeds exactly when every row of the table has integer counts |
| ReportFormat.ScanReadsOnlyTable | pyproteum/ProteumReport.py:59-80 | the scan depends only on the table rows and the line that ends it |
| ReportFormat.MakeSummary | pyproteum/ProteumReport.py:56-78 | the summary's dictionary has exactly the names of its key list as keys |
| ReportFormat.Parse | pyproteum/ProteumReport.py:17-80 | a successful load has the dictionary's keys equal to the key list's elements and single-word text fields; a failure is on a labelled line or in the table |
| ReportFormat.ParseStopsAtFirstNonRow | pyproteum/ProteumReport.py:59-80 | no line after the first non-row line is read: two inputs that agree up to it load the same |
| ReportFormat.ParseIgnoresSkippedLines | pyproteum/ProteumReport.py:17-80 | inputs that agree on the labelled lines and on the table give the same load, whatever the skipped lines hold |
| ReportFormat.ParseEmptyTable | pyproteum/ProteumReport.py:56-63 | with a good header and a line 20 that is blank, absent or not a row, the load gives an empty dictionary and an empty key list |
| ReportFormat.TabulateSnoc | pyproteum/ProteumReport.py:67-68 | one more pair assigns its count to its name and appends the name to the key list |
| ReportFormat.TabulatePair | pyproteum/ProteumReport.py:67-73 | a two-pair row assigns and appends both, in order |
| ReportFormat.TabulateTriple | pyproteum/ProteumReport.py:67-78 | a three-pair row assigns and appends all three, in order |
| ReportFormat.TabulateKeys | pyproteum/ProteumReport.py:67-78 | the dictionary's keys are exactly the names in the key list (duplicates appended again) |
| ReportFormat.TabulateLastWins | pyproteum/ProteumReport.py:67-78 | in the dictionary `Tabulate` builds, a name's value is the count of the last pair that carries it |
| ReportFormat.ScanStepRow | pyproteum/ProteumReport.py:63-80 | one turn of the table loop on a row that reads: the scan's result is that of the rest of the table, with the row's pairs added to those read so far |
| ReportFormat.ScanStepFail | pyproteum/ProteumReport.py:63-80 | a row whose count is not an integer ends the scan with that row's error |
| ReportFormat.ParseHeaderFails | pyproteum/ProteumReport.py:18-53 | a header that fails fails the whole load with its error: no partial summary |
| ReportFormat.ParseTableFails | pyproteum/ProteumReport.py:59-80 | after a good header, a table row that fails fails the whole load with its error |
| ReportFormat.ParseSucceeds | pyproteum/ProteumReport.py:17-80 | a good header and a good table make the load, the summary being made of the two |
| ReportFormat.ScanStop | pyproteum/ProteumReport.py:63 | at a line that is not a row, or at the end of input, the scan adds nothing more |
| ProteumReport.ReadHeader | pyproteum/ProteumReport.py:18-53 | the eight labelled lines read in turn give the header exactly when `ParseHeader` succeeds, or that function's error |
| ProteumReport.ProteumReport.constructor | pyproteum/ProteumReport.py:10-11 | the handler is bound to its `.lst` path |
| ProteumReport.ProteumReport.LoadGeneral | pyproteum/ProteumReport.py:17-80 | the load succeeds exactly when `Parse` does; the fields then hold exactly the parsed summary, with dictionary keys equal to the key list's elements; otherwise the error is `Parse`'s |
| ProteumReport.ProteumReport.SetHeader | pyproteum/ProteumReport.py:22-50 | the header's eight fields are assigned, the operator table is left as it is |
| ProteumReport.ProteumReport.LoadTable | pyproteum/ProteumReport.py:56-80 | the table loop leaves `operators` and `orderedOpKeys` equal to the tabulated pairs of the table scan, or returns the scan's error |
| ProteumReport.ProteumReport.ReadRow | pyproteum/ProteumReport.py:67-78 | one row's pairs assigned and appended in order, or the row's ValueError |
| ProteumReport.ProteumReport.AssignPair | pyproteum/ProteumReport.py:67-68 | `operators[name] = int(tok)` then the name appended; nothing changes when `int()` raises |
| ProteumReport.ProteumReport.StrOps | pyproteum/ProteumReport.py:109-117 | the output is the rendering of `Layout(orderedOpKeys)`: every key's entry in order, `endl` after every third |
| OpsLayout.EntryText | pyproteum/ProteumReport.py:113 | an entry is exactly a space, the key, the spaces that fill its field to 15 characters, a space, the spaces that fill the count's field to 5 characters, the count's digits, then four spaces; a key or count longer than its field gets no filling |
| OpsLayout.Layout | pyproteum/ProteumReport.py:109-117 | the pieces are entries for the given keys and line breaks |
| OpsLayout.LayoutSnoc | pyproteum/ProteumReport.py:112-116 | one more key adds its entry, and a break exactly when it completes a row of three |
| OpsLayout.LayoutLength | pyproteum/ProteumReport.py:109-117 | n keys give n entries and n / 3 breaks |
| OpsLayout.LayoutPiece | pyproteum/ProteumReport.py:109-117 | piece p is a break exactly when p % 4 == 3, and otherwise the entry of key 3(p/4) + p%4 |
| OpsLayout.LayoutAt | pyproteum/ProteumReport.py:109-117 | one entry per key, in order; a break after every third entry and nowhere else |
| OpsLayout.StrOpsStep | pyproteum/ProteumReport.py:112-116 | one turn of the loop appends the key's entry, then `endl` when it completes a row of three |
| Text.ParseIntDigits | pyproteum/ProteumReport.py:30 | `int()` accepts exactly a non-empty run of decimal digits, optionally after one `+` or `-` |
| Text.SplitStrip | pyproteum/ProteumReport.py:22 | `strip()` before `split()` changes nothing |
| Text.SplitWords | pyproteum/ProteumReport.py:60 | every token of `split()` (`Split`) is a non-empty word without whitespace |
| Text.ParseIntToString | pyproteum/Proteum.py:201 | `int(str(i)) == i` for every integer |
| Text.IntTokenIsFloat | pyproteum/ProteumReport.py:50 | an integer token is accepted by `float()` too |
| Text.PadRight | pyproteum/ProteumReport.py:113 | `%-15s`: the text, then spaces up to the width |
| Text.PadLeft | pyproteum/ProteumReport.py:113 | `%5d`: spaces up to the width, then the text |
| Text.SplitJoin | pyproteum/Proteum.py:182 | joining words with single spaces and splitting gives the words back |
| Operators.Filter | pyproteum/Proteum.py:55 | the filtered list is no longer than the list |
| Operators.Operators | pyproteum/Proteum.py:54-57 | with `None` or `""` the whole list |
| Operators.FilterMembers | pyproteum/Proteum.py:55 | an entry is kept exactly when it is in the list and starts with the prefix |
| Operators.FilterAppend | pyproteum/Proteum.py:55 | filtering keeps list order: filtering a concatenation concatenates the filtered parts |
| Operators.OperatorsWithPrefix | pyproteum/Proteum.py:54-55 | with a non-empty prefix, exactly the listed operators that start with it |
| CommandLine.SplitRender | pyproteum/Proteum.py:114-124 | the appended arguments split into each present argument's flag and value words, in order |
| CommandLine.FlagsAreWords | pyproteum/Proteum.py:114-124 | every appended flag is one of the words the shell sees |
| Commands.Exec | pyproteum/Proteum.py:136-146 | raises exactly when no explicit session is given and none was ever set; skips, echoing only the diagnostic, exactly when the resolved session is `""`; an explicit session decides alone; the shell line is `command + " " + session` plus `" >> " + of` when there is an output file, and the echo is the executing banner and that line without the redirection |
| Commands.ShellTokens | pyproteum/Proteum.py:142-144 | the shell line splits into the command's words, the session's words, then `>>` and the output file |
| Commands.ExecTokens | pyproteum/Proteum.py:136-146 | what `exec_command` runs splits into the command, the resolved session, then the redirection |
| Commands.PathJoin | pyproteum/Proteum.py:504 | `os.path.join`: an absolute second part replaces the first; otherwise the two are concatenated, with one `/` inserted only when the first part is non-empty and does not end in `/` (so `join("", b)` is `b`) |
| Commands.TestNewFlags | pyproteum/Proteum.py:114-124 | `-research`, `-S`, `-E`, `-D`, `-C` in that order, each only when set |
| Commands.TestNewShape | pyproteum/Proteum.py:126-127 | the command `TestNewCommand` builds starts with the binary directory and `test-new` and ends with the session name |
| Commands.MutaGenFlags | pyproteum/Proteum.py:167-179 | `-unit`, `-seed` (a string seed only), `-c` (both units given), `-r`, `-D`, `-DD`, in that order, each only when set |
| Commands.OpTexts | pyproteum/Proteum.py:182 | one text per operator entry |
| Commands.OpWords | pyproteum/Proteum.py:182 | three words per operator entry |
| Commands.SplitOpText | pyproteum/Proteum.py:182 | an entry reads as its filter, percentage and maximum |
| Commands.SplitOpTexts | pyproteum/Proteum.py:182 | the joined operator list splits into filter, percentage and maximum of each entry, in input order |
| Commands.OpsStrTokens | pyproteum/Proteum.py:181-182 | the corrected operator string `OpsStr`: `-O` and the file, then every entry's three words |
| Commands.OpsStrAsWrittenGlues | pyproteum/Proteum.py:181-182 | as written (`OpsStrAsWritten`), the second word is the `-O` file name run together with the first filter |
| Commands.OpsStrAsWrittenDiffers | pyproteum/Proteum.py:181-182 | so the words of the string as written differ from the corrected one's whenever a file and an operator are given |
| Commands.MutaGenTokens | pyproteum/Proteum.py:167-184 | the line `muta_gen` runs (`MutaGenCommand`) splits into `muta-gen`, the words of the operator string as written, then the options' words |
| Commands.MutaGenGlued | pyproteum/Proteum.py:167-184 | with a one-word `-O` file and at least one operator, the tool receives `muta-gen`, `-O`, then the file name run together with the first filter |
| Commands.MutaGenIntendedTokens | pyproteum/Proteum.py:167-184 | the corrected line (`MutaGenCommandIntended`) splits into `muta-gen`, `-O` and the file's words, each entry's filter, percentage and maximum, then the options' words |
| Commands.TcaseFlags | pyproteum/Proteum.py:199-207 | `-f` only for f > 0, `-t` only for t > 0, then `-x` and `-D` when non-empty, in that order |
| Commands.TcaseTokens | pyproteum/Proteum.py:196-209 | the `tcase` line (`TcaseCommand`) splits into `tcase`, the action's words, then the range options' words in order |
| Commands.TcaseAddFlags | pyproteum/Proteum.py:310-332 | `-trace`, `-label`, then `-P` when the parameter string is `"-P"` or `-p` for any other non-empty one, then `-D`, `-DD`, `-EE` |
| Commands.TcaseAddTokens | pyproteum/Proteum.py:310-339 | the line `TcaseAddCommand` builds: with an executable, `tcase`, `-add`, the arguments, then `-E` and the executable last; without: `tcase-add` and the arguments |
| Commands.ExemutaFlags | pyproteum/Proteum.py:363-379 | `-trace`, `-dual`, `-D`, `-Q`, `-f`, `-t`, `-T`, `-v`, in that fixed order, each only when set |
| Commands.ExemutaTokens | pyproteum/Proteum.py:363-381 | the line `ExemutaCommand` builds splits into `exemuta`, the subcommand's words, then the options' words |
| Commands.ReportFlags | pyproteum/Proteum.py:492-501 | `-D`, `-S`, `-L`, in that order, each only when set |
| Commands.ReportTokens | pyproteum/Proteum.py:492-503 | the line `ReportCommand` builds splits into `report`, `-trace` when tracing and `-tcase` otherwise, then the options' words |
| Proteum.Proteum.constructor | pyproteum/Proteum.py:59-67 | the output file is kept only when given, non-empty and an existing file; empty directories; no session |
| Proteum.Proteum.SetBinDir | pyproteum/Proteum.py:69-71 | the binary directory is replaced, nothing else changes |
| Proteum.Proteum.SetInterfaceDir | pyproteum/Proteum.py:73-75 | the interface directory becomes `""` whatever is passed |
| Proteum.Proteum.SetSession | pyproteum/Proteum.py:77-79 | the ambient session becomes the given one |
| Proteum.Proteum.ExecCommand | pyproteum/Proteum.py:129-146 | does what `Exec` says for the explicit and ambient sessions and the adapter's own output file; the `of` argument has no effect |
| Proteum.Proteum.TestNew | pyproteum/Proteum.py:113-127 | sets the ambient session, then runs the `test-new` line directly: echoed as is, never redirected, never skipped |
| Proteum.Proteum.MutaGen | pyproteum/Proteum.py:164-184 | raises on an unset session, then on a non-zero integer seed; otherwise runs the `muta-gen` line with the operator string as written |
| Proteum.Proteum.Tcase | pyproteum/Proteum.py:196-209 | runs the `tcase` line for the action and range options |
| Proteum.Proteum.TcaseCreate | pyproteum/Proteum.py:220-223 | runs `tcase -create` with no range, in directory D |
| Proteum.Proteum.TcaseList | pyproteum/Proteum.py:234-237 | runs `tcase -l` with the range options |
| Proteum.Proteum.TcaseShow | pyproteum/Proteum.py:248-251 | runs `tcase` with an empty action and the range options |
| Proteum.Proteum.TcaseEnable | pyproteum/Proteum.py:262-265 | runs `tcase -e` with the range options |
| Proteum.Proteum.TcaseDisable | pyproteum/Proteum.py:276-279 | runs `tcase -i` with the range options |
| Proteum.Proteum.TcaseDelete | pyproteum/Proteum.py:290-293 | runs `tcase -i`: the same invocation as `TcaseDisable` on the same arguments |
| Proteum.Proteum.TcaseAdd | pyproteum/Proteum.py:307-339 | runs the `tcase -add … -E E` line or the `tcase-add …` line |
| Proteum.Proteum.Exemuta | pyproteum/Proteum.py:360-381 | runs the `exemuta` line; the seed has no effect |
| Proteum.Proteum.ExemutaExec | pyproteum/Proteum.py:401-404 | runs `exemuta -exec` with all options passed through |
| Proteum.Proteum.ExemutaCompile | pyproteum/Proteum.py:415-418 | runs `exemuta -compile` without trace, dual, timeout or verbose options |
| Proteum.Proteum.ExemutaUpdate | pyproteum/Proteum.py:431-434 | runs `exemuta -update` without trace, timeout or verbose options |
| Proteum.Proteum.ExemutaSelect | pyproteum/Proteum.py:459-474 | always raises: on an unset session, otherwise on the keyword `x` that `exemuta` lacks |
| Proteum.Proteum.ExemutaInvert | pyproteum/Proteum.py:482-485 | as written: `-trace` appears exactly when the resolved session is non-empty, and `exemuta -invert` runs with the ambient session, not the given one |
| Proteum.Proteum.Report | pyproteum/Proteum.py:488-504 | runs the `report` line and returns a fresh handler bound to `join(D, session + ".lst")` unless reading the session raised |

## Left out

- Process and file I/O are not modelled: `os.system`, the console, and `echo`'s writes
  to the output file. Each call's result is the `Invocation` describing what would be
  echoed and run. `echo` opens the output file with mode `"w+"`, so each message
  replaces the file's content. That effect on the file is not modelled.
- The constructor's `isfile(of)` is a boolean parameter.
- `load` (opening the `.lst` file) is not modelled: `LoadGeneral` takes the file's lines
  without terminators, and a line past the end reads as `""`.
- `__str__`, `load_test_cases`, pyproteum/TestCaseInfo.py and setup.py are not part of
  this model. `load_test_cases` is never called and uses a name the module does not
  import. The rest is presentation or packaging.
- ProteumReport.ProteumReport.constructor: the source's `__init__` sets only `lst`, so
  reading a report field or calling `str_ops` before `load_general` raises
  AttributeError. The model starts the fields at empty values instead: `""`, `0`, an
  empty dictionary and an empty key list. `StrOps` on a fresh handler therefore returns
  `""` where the source raises.
- ProteumReport.ProteumReport.LoadGeneral: on failure, the model says nothing about the
  fields. The source keeps the fields assigned before the line that raised.
- The mutation score is not converted. `float()` is modelled only as the token syntax it
  accepts, and the field keeps the token as text.
- String operations follow Python 3 `str` semantics: `split()` and `strip()` use the
  Unicode whitespace set. Under Python 2, byte strings split only on ASCII whitespace,
  so lines containing `\x1c`-`\x1f`, `\x85` or `\xa0` would split differently.
- `int()` and `float()` do not accept underscores or non-ASCII digits in the model;
  Python accepts both.
- `set_session(None)` and `test_new(None)` are not modelled: sessions are strings. The
  absent session stands only for an attribute that was never assigned.
- `muta_gen`'s operator entries are modelled as typed filter, integer percentage and
  integer maximum. Missing dictionary keys (KeyError) and non-integer percentages are
  not modelled. A seed is an integer or a string; other seed types are not modelled.
- `exemuta_select` builds its argument string before the call that raises. That string
  is never used, so it is not modelled.
- The command lemmas describe the words Python's `split()` finds, not shell parsing.
  Quoting and shell metacharacters are not modelled, so `test_new`'s double-quoted `-D`
  and `-C` values get flag-order lemmas but no word-level lemma.
- Python's default arguments are not modelled: every method takes all its parameters
  explicitly. Callers supply the defaults, which differ between methods.
  `exemuta_exec` defaults `trace` to `True`, while `exemuta` and `tcase_add` default it
  to `False`.
- Proteum.Proteum.MutaGen: runs the line the source builds, not the corrected one.
  `Commands.MutaGenCommandIntended` is the corrected line; no method of the adapter
  runs it.
- `Proteum.Report` returns the handler without loading it, as the source does. Loading
  is `LoadGeneral`.

## Findings

| source | as written | input that shows it | evidently intended | confidence | as-written member | corrected member |
|---|---|---|---|---|---|---|
| pyproteum/Proteum.py:181-182 | `ops_str = '-O ' + O` is followed directly by the joined operator entries, with no space between | `O = "ops"` with one operator `u-OAAA 100 0`: the string is `-O opsu-OAAA 100 0`, so the tool sees the file name `opsu-OAAA` | a space between the `-O` file and the first operator entry | not executed | Commands.OpsStrAsWritten, Commands.OpsStrAsWrittenGlues, Commands.OpsStrAsWrittenDiffers, Commands.MutaGenGlued | Commands.OpsStr, Commands.OpsStrTokens, Commands.MutaGenIntendedTokens |
