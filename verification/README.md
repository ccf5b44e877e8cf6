# pyrocko-vagrant-bot commander, modelled in Dafny

The bot takes chat commands such as `run #fix-io all` or `log machines`.
Its core is the `VagrantCommander` class in `src/commander.py` together with
`VagrantMachine` and the `register_command` decorator. This project models
the part of that core that turns text into text:

- the handler table that `register_command` fills;
- the first-match routing of `__call__`;
- the five command handlers, with the reply text each one leaves;
- the two argument readers, `_get_machines_from_text` and `_strip_branch_name`;
- machine discovery, `scan_machines` and `verify_path`;
- the log renderer, `get_log` and `parse_result`.

The external world appears as inputs:

- The filesystem is a snapshot: a map from directories to their listings
  and a map from files to their text (`Fs.FileSystem`). The text is what
  `open(fn, 'r').read()` returns: already decoded, with "\r\n" and "\r"
  already turned into "\n" by Python's universal newlines.
- Whether a machine's run thread is alive is a boolean field of `Vagrant.Machine`.
- A Python exception becomes a `Failure` that carries an `Errors.Error`.

Python behaviour is written out where the code relies on it:

- `str.split()` and `str.strip()` use Python's `isspace` set.
- `str.lower()` covers the ASCII and Latin-1 letters.
- `os.path.join` and `os.path.basename` follow POSIX rules.
- A dict assignment keeps its insertion order.
- Every regular expression is an exact model: a leftmost `re.search`, or a
  non-overlapping `re.findall`.

Modules follow the source's structure:

| file | module | models |
|---|---|---|
| `wrappers.dfy` | `Wrappers` | `Option`, `Result` |
| `errors.dfy` | `Errors` | the exceptions the core raises |
| `seqs.dfy` | `Seqs` | subsequences, filtering, leftmost search, greedy runs |
| `text.dfy` | `Text` | the Python string operations the core uses |
| `fs.dfy` | `Fs` | the filesystem snapshot, `os.path.join`, `os.path.basename` |
| `router.dfy` | `Router` | `register_command`, first-match routing, the help text |
| `report.dfy` | `Report` | `parse_result`: its file-name, coverage, outcome, skip, ERROR and FAIL patterns, and its rendering |
| `readback.dfy` | `Readback` | the inverse of the report rendering, which shows no information is lost |
| `vagrant.dfy` | `Vagrant` | `VagrantMachine`: `verify_path`, `status_str`, `get_log` |
| `arguments.dfy` | `Arguments` | `_get_machines_from_text`, `_strip_branch_name` |
| `discovery.dfy` | `Discovery` | `scan_machines` |
| `commander.dfy` | `Commander` | the five handlers, the default table and `__call__` |

Behaviours that follow from the code as written, and that the model keeps:

- Routing tests whether a pattern occurs anywhere in the text, trying
  patterns in registration order (help, machines, run, inspect, log). So
  `log machines` lists the machines (`Commander.LogMachinesListsMachines`),
  and `list` is an unknown command (`Commander.ListIsUnknown`).
- `verify_path` never rejects a directory. Its test reads as
  `(not 'inside.sh') and ...`, and a non-empty string is truthy, so the
  test is always false. Only listing the directory can fail
  (`Vagrant.VerifyPath`). Because of this, the `AttributeError` branch in
  `scan_machines` cannot be reached.
- When `run` names no machine, `_get_machines_from_text` overwrites the
  reply with "No machines given!". `[:-2]` then cuts it to
  "No machines give" (`Commander.RunReply`). Otherwise `[:-2]` cuts the
  final "`" and newline of the branch line, or the final "!" and newline of
  the last `started!` line.
- `inspect` with at least one target raises: after adding the
  "Inspection of" line for the first target it reads `m.stdout`, and
  `VagrantMachine` has no such attribute (`Commander.InspectReply`). The
  exception discards the reply.
- `scan_machines` stops at the first listed entry that is already
  registered (`break`, not `continue`). It registers only the entries
  before that one (`Discovery.ScanMachinesSpec`).

## Model

| member | source | states |
|---|---|---|
| Router.Register | src/commander.py:133-139 | Assigning into the ordered handler table: a new pattern goes last; an existing pattern keeps its position and gets the new handler and doc; every other entry is unchanged; a missing doc becomes "Handler not documented."; distinct patterns stay distinct |
| Router.FirstMatch | src/commander.py:157-162 | The chosen route's pattern occurs in the text and no earlier route's pattern does; no route is chosen exactly when no pattern occurs |
| Router.Help | src/commander.py:180-185 | The help text is the header line, then exactly one line "* `pattern` stripped-doc" per route, in table order, when no pattern or stripped doc holds a newline (a newline inside one would split its entry over two lines, as in the source); an empty table gives exactly the header and a newline |
| Router.RegisterUndocumented | src/commander.py:136-137 | A handler registered without a docstring is listed with "Handler not documented." |
| Commander.Dispatch | src/commander.py:157-164 | When no pattern occurs, the reply is "Unknown command _text_"; otherwise the reply is the handler of the first route in registration order whose pattern occurs in the text |
| Commander.DefaultRoutesTable | src/commander.py:180-217 | The five decorators, applied in class-body order to an empty table, build the default table: help, machines, run, inspect, log, each with its docstring |
| Commander.ListIsUnknown | src/commander.py:157-164 | "list" contains none of the five patterns, so it gets the unknown-command reply |
| Commander.MachinesWins | src/commander.py:157-162 | Any text containing "machines" and not "help" lists the machines, whatever other command words it also contains |
| Commander.LogMachinesListsMachines | src/commander.py:157-162 | "log machines" is routed to show_machines, not to show_log |
| Commander.MachineList | src/commander.py:187-193 | The machine list is the header, then one line per registered machine in registry order, giving its base name and its status ("stopped", or ":running_man: running" when its thread is alive), when no machine name holds a newline (a newline inside a name would split its entry over two lines, as in the source); an empty registry gives exactly the header and a newline |
| Commander.RunReply | src/commander.py:195-205 | With no machine argument, the reply is "No machines give". Otherwise, the reply with its cut-off two characters appended ("`\n" when no machine is selected, "!\n" otherwise) is the earlier reply, then the branch line, then one started line per selected machine |
| Commander.RunReplyTail | src/commander.py:199-205 | The text run_machine truncates always ends in "`\n" (no targets) or "!\n" (at least one target) |
| Commander.StartedLinesLayout | src/commander.py:202-204 | When no target's name holds a newline, the started lines split back into exactly one "* `name` started!" line per target, in order |
| Commander.InspectReply | src/commander.py:207-213 | inspect succeeds exactly when no machine is selected: with no arguments it gives "No machines given!", and otherwise it leaves the reply unchanged. When a machine is selected it raises for the first one |
| Commander.LogReply | src/commander.py:215-221 | With no arguments the reply is "No machines given!". With arguments, show_log succeeds exactly when get_log succeeds for every selected machine. The reply is then the earlier reply followed by each selected machine's section, in registry order. Otherwise it fails with the error of the first selected machine whose get_log fails |
| Commander.MachineLogsSections | src/commander.py:218-221 | The loop over the targets succeeds exactly when every target's get_log does. Its text is then the concatenation, in target order, of "Showing logs## Machine `name`:\n" followed by that target's log. Otherwise it fails with the first failing target's error |
| Arguments.MachineArgs | src/commander.py:226 | The arguments are the lower-cased words after the first, one per word and in order; there are none exactly when the text has at most one word |
| Arguments.Targets | src/commander.py:229-231 | The selection is a subsequence of the registry. It keeps each machine that "all" or its lower-cased name selects, with the machine's multiplicity, and drops all others. With "all" it is the whole registry |
| Arguments.GetMachinesFromText | src/commander.py:223-233 | A machine is returned exactly when it is registered and selected, in registry order. Without arguments nothing is returned and the reply becomes "No machines given!". With arguments the reply is untouched |
| Arguments.StripBranchName | src/commander.py:235-243 | Without a tag, the branch is master and the text is kept. Otherwise either the text is kept, or exactly one tag, made of branch characters, is cut out of it |
| Arguments.CutTagShape | src/commander.py:236-242 | Cutting the tag at a position takes the longest run of [a-zA-Z0-9_-] after the # as the branch, and removes exactly the whitespace, the # and that run from the text |
| Arguments.StripSingleTag | src/commander.py:236-242 | With exactly one whitespace-# tag, the branch is the longest run of [a-zA-Z0-9_-] after the #, and the text loses exactly the tag |
| Arguments.StripAmbiguousTags | src/commander.py:237-239 | Two or more tags give branch master and leave the text unchanged |
| Vagrant.StatusStr | src/commander.py:124-130 | The status is "stopped" exactly when the machine's run thread is not alive, and otherwise ":running_man: running"; it is one non-empty line |
| Vagrant.VerifyPath | src/commander.py:57-62 | verify_path succeeds exactly on directories. Otherwise it fails with the listing error: not a directory, or no such path |
| Vagrant.LogFiles | src/commander.py:66 | A path is globbed exactly when it is the directory joined with one of its entries that matches test-*.py[23].out. The globbed paths keep the listing's order, as a subsequence of the joined listing. A non-directory gives none |
| Vagrant.LogFileNames | src/commander.py:66 | The base names of the globbed paths are exactly the matching entries, in listing order and with their multiplicity |
| Vagrant.GlobbedNameShape | src/commander.py:66 | A newline-free name the glob selects is "test-", a newline-free label, ".py", its version digit, and ".out" |
| Vagrant.FileReport | src/commander.py:75-80 | parse_result opens the file before it matches the name: it fails with the open error for an unreadable file, then with the name error for a name that does not parse, and otherwise gives the report text of the file's contents |
| Vagrant.RenderFiles | src/commander.py:69-70 | The loop over the files succeeds exactly when every file can be reported. Its text is then the files' reports concatenated in order. Otherwise it fails with the error of the first file that cannot be reported |
| Vagrant.GetLog | src/commander.py:64-72 | get_log gives "*No log available*" exactly when no file matches. It succeeds exactly when every globbed file can be reported, and then it is "```\n", the reports of the globbed files in glob order, and "```\n". Otherwise it fails with the first failing file's error |
| Vagrant.GlobbedNameParses | src/commander.py:66-80 | Every name the glob selects that holds no newline, joined to a non-empty directory path without "/test-", passes the file-name regex: the wildcard part is the branch and the digit is the python version. The newline proviso is real: the glob's `*` matches a newline and the regex's `.*` does not, so such a name is globbed and then fails the regex |
| Vagrant.GetLogSucceeds | src/commander.py:64-72 | For a non-empty directory path without "/test-" whose entries hold no newline, and whose matching files are all readable, get_log does not raise |
| Discovery.AddMachines | src/commander.py:250-261 | The loop only appends to the registry; every machine it adds is not yet registered and not running |
| Discovery.ScanMachines | src/commander.py:245-261 | A missing maintenance/vagrant directory raises. A successful scan keeps the registry as a prefix and adds only unregistered, stopped machines |
| Discovery.AddMachinesSpec | src/commander.py:251-260 | The loop registers exactly the entries before the first already-registered one, in listing order. It succeeds exactly when each of them is a directory |
| Discovery.ScanMachinesSpec | src/commander.py:245-261 | A scan of an existing directory appends one stopped machine per listed entry before the first registered one, and fails exactly when one of them is not a directory |
| Discovery.ScanIdempotent | src/commander.py:250-254 | Scanning again right after a successful scan changes nothing |
| Discovery.NewPathsDistinct | src/commander.py:252 | Distinct separator-free entries are joined into distinct machine paths |
| Discovery.ScanKeepsPathsDistinct | src/commander.py:250-257 | If the listing's names are distinct, a scan keeps the registry free of duplicate paths |
| Report.ParseFileName | src/commander.py:78-80 | The file name parses exactly when "/test-" is followed by a newline-free label and .py2.out or .py3.out at the end (optionally before a final newline); the version is 2 or 3 |
| Report.VersionSuffixShape | src/commander.py:78-80 | What the pattern matched after "/test-" is the branch, ".py", the version digit and ".out", either at the very end or before a final newline |
| Report.ParseFileNameLeftmost | src/commander.py:78 | The leftmost "/test-" where the whole pattern matches decides branch and version |
| Report.ParseJoinedFileName | src/commander.py:78-80 | A path ending in /test-branch.pyV.out, with no earlier "/test-", yields exactly that branch and version |
| Report.TotalValue | src/commander.py:86 | The TOTAL line yields a non-empty suffix that follows only spaces after "TOTAL". It starts with a non-space, unless the line is all spaces after TOTAL, where the regex backtracks and captures a single space |
| Report.Coverage | src/commander.py:86-88 | A coverage value is found exactly when some line ending in --- is followed by a TOTAL line and then a line starting with --- |
| Report.CoverageFirstBlock | src/commander.py:86-88 | The first such block in the file gives the coverage value |
| Report.Detail | src/commander.py:90 | The optional group ` +\([^\)]+\)` captures a non-empty prefix exactly when some prefix of the text is one or more spaces, "(", one or more characters other than ")", and ")". It then captures exactly that prefix, which ends at the first ")"; otherwise it captures nothing |
| Report.SummaryAt | src/commander.py:90 | An outcome is read at a line start exactly when the line starts with OK or FAILED. It is that word followed by the detail right after it, if any |
| Report.SummaryWithDetail | src/commander.py:90-92 | "OK" followed by a complete ` +\([^\)]+\)` match is read whole as the outcome |
| Report.TestCountIsDetail | src/commander.py:90-92 | " (12 tests)" is such a match, so "OK (12 tests)" is read whole |
| Report.SummaryWordOnly | src/commander.py:90-92 | When no space follows "OK" (as in "OKAY"), the outcome is just "OK": nothing requires the word to end there |
| Report.Summary | src/commander.py:90-92 | An outcome is found exactly when some line starts with OK or FAILED |
| Report.SummaryFirstLine | src/commander.py:90-92 | The first line starting with OK or FAILED gives the outcome |
| Report.SkipReason | src/commander.py:96 | A line yields a skip reason exactly when " SKIP: " occurs at index three or later. The reason is a suffix of the line |
| Report.SkipReasonsPerLine | src/commander.py:96 | findall of the skip pattern gives exactly one reason per line that has one, in file order, and the reason is that line's |
| Report.SkipReasonLeftmost | src/commander.py:96 | The leftmost such " SKIP: " starts the reason, which runs to the end of the line |
| Report.Tally | src/commander.py:95-103 | The skip histogram lists each distinct reason once, in sorted order, with its number of occurrences; the counts add up to the number of skip lines |
| Report.BumpKeys | src/commander.py:97-100 | Counting one more reason keeps the reasons sorted and adds that reason |
| Report.BumpCount | src/commander.py:97-100 | Counting one more reason raises exactly its count, by one |
| Report.BumpTotal | src/commander.py:97-100 | Counting one more reason raises the total by one |
| Report.LinesStartingWith | src/commander.py:105-109 | The ERROR and FAIL lines are the whole lines with that prefix, in file order, each kept as often as it occurs |
| Report.ParseReport | src/commander.py:74-110 | A report is produced exactly when the file name parses, and otherwise fails with the file-name error. It carries the name's branch and version, the first coverage block, the first outcome line, skips only when asked for, and the ERROR and FAIL lines |
| Report.ParseResult | src/commander.py:74-110 | parse_result succeeds exactly when the name parses, and its text starts with the python and branch lines |
| Report.ReportLines | src/commander.py:81-109 | The report has one line for python and one for branch, first and in that order, then one line per field present, per histogram entry and per ERROR and FAIL line |
| Report.Render | src/commander.py:81-110 | The report text starts with the "python: V" and "branch: B" lines and ends with a newline |
| Readback.ParseResultReadsBack | src/commander.py:74-110 | When the outcome holds no newline, parse_result's text splits into exactly the report's lines in fixed order (python, branch, coverage, tests, skips, ERROR lines, FAIL lines) plus the empty piece after the last newline. It reads back to the parsed report |
| Readback.ReadReportLines | src/commander.py:81-109 | The lines parse_result writes for a well-formed report read back to that report |
| Readback.ReadRender | src/commander.py:81-109 | The rendered text of a well-formed report reads back to the report: rendering loses nothing |
| Readback.RenderInjective | src/commander.py:81-109 | Two well-formed reports with the same rendering are equal |
| Readback.SkipLinesReadBack | src/commander.py:102-103 | The "   skip: reason (Nx)" lines read back to the histogram they were written from |
| Readback.SkipLineReadsBack | src/commander.py:103 | One skip line reads back to its reason and its count, written with %i |
| Readback.ParsedReportWellFormed | src/commander.py:74-110 | Every report parse_result extracts is well-formed, provided its outcome line holds no newline. The outcome's parenthesised detail may span lines, so this proviso is needed |
| Fs.FileSystem.ListDir | src/commander.py:59 | os.listdir gives the directory's entries exactly for a directory; otherwise it fails with "not a directory" for a file and "no such path" for a missing path |
| Fs.FileSystem.Read | src/commander.py:77-84 | open and read give the file's text exactly for a file that is not a directory; otherwise they fail with "is a directory" or "no such path" |
| Fs.PathJoinShape | src/commander.py:66 | os.path.join ends with the second part. An absolute second part replaces the first. Otherwise the first part is kept in front, and a separator comes right before the second part when the first is non-empty |
| Fs.Basename | src/commander.py:53 | os.path.basename is the suffix of the path after its last separator, with no separator in it |
| Fs.BasenameOfJoin | src/commander.py:53 | A machine's name, the base name of its joined path, is the listed entry itself |
| Fs.PathJoinInjective | src/commander.py:252 | Joining distinct separator-free names under one directory gives distinct paths |
| Text.Words | src/commander.py:226 | split() gives non-empty words without whitespace |
| Text.WordsArePieces | src/commander.py:226 | split() equals splitting at every single whitespace character and dropping the empty pieces, so the words are the text's whitespace-separated runs, in order |
| Text.WordsOfJoin | src/commander.py:226 | split() undoes joining whitespace-free words with single spaces |
| Text.Lower | src/commander.py:226 | lower() keeps the length and leaves no upper-case letter. It maps each upper-case letter to the letter 32 code points later, its lower-case form, and leaves every other character alone |
| Text.Lines | src/commander.py:105-108 | The lines of a text hold no newline and re-join with newlines to the text |
| Text.LinesOfJoin | src/commander.py:105-108 | Splitting on newlines undoes joining newline-free lines |
| Text.StripSurrounded | src/commander.py:184 | strip() removes exactly the whitespace around a word that starts and ends with a non-space |
| Text.NatToString | src/commander.py:103 | %i of a count is a non-empty run of decimal digits that starts with 0 only for the count 0 |
| Text.LessIrreflexive | src/commander.py:102 | No reason sorts before itself |
| Text.LessTransitive | src/commander.py:102 | The string order sorted() uses is transitive |
| Text.LessTotal | src/commander.py:102 | Any two different reasons are ordered one way or the other |
| Text.NatToStringValue | src/commander.py:103 | The %i rendering of a count reads back to the count |

## Left out

- Threads and processes: `ExecuteVM`, starting and joining machines,
  `isfinished`, `stop`, and the `RuntimeError` from starting a thread twice.
  Whether a machine is running is an input.
- Git: `init_git` and `checkout_pull_branch` (clone, checkout, pull). The
  run reply is modelled without them.
- The constructor's working-directory lookup and `os.makedirs`, and the web
  server and app that deliver events (`src/server.py`, `src/app.py`).
- Regular expressions in general. The five registered patterns are plain
  words, so routing is substring search.
- `str.lower()` beyond Latin-1: other scripts' upper-case letters are left unchanged.
- The text inspect would print: a machine has no output buffers, so the
  command raises while building it, and the reply it started is dropped.
- The order of `os.listdir` and `glob.glob` is whatever the listing in
  the snapshot gives.
- Logging calls, which do not change any reply.
- Decoding of file bytes and its `UnicodeDecodeError`, and `PermissionError`
  from `os.listdir` or `open`: file text is taken as already decoded, and
  every existing path as readable.
- `status_str` asks the thread `isAlive()`, a method that newer Python
  versions no longer have. The model takes the thread's liveness as given.
- Glob metacharacters inside a machine's own directory path: the model
  matches only the file-name part against `test-*.py[23].out`.
- Readback.ParseResultReadsBack: like ParsedReportWellFormed below, it
  requires the outcome line to hold no newline.
- Readback.ParsedReportWellFormed: it requires the outcome line to hold no
  newline. The regex's `[^\)]` class crosses newlines, so an outcome
  detail spanning lines renders to text that no longer reads back uniquely.
- Commander.RunReply: it describes the reply only. The side effects that
  checkout and machine start would have are not modelled.
