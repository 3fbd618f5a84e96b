# faf core problem type, CentOS plugin and web form fields in Dafny

This project models three parts of the faf crash-report server:

- the user-space crash ("core") problem type;
- the CentOS operating-system plugin;
- the web form fields that parse their own values.

Each part is modelled in the form the code takes. The Python functions
that only compute become Dafny functions with lemmas about them. The
operations that change things step by step become methods with loops and
invariants, proved against those functions.

- **The uReport (`CoreReport`).** A submitted uReport is a datatype in
  which every JSON key may be missing.
  - `GetCrashThread` is `_get_crash_thread`.
  - The repair pass of `validate_ureport` fixes up frames that call
    JIT-compiled code. It is the function `RepairFrames`, and the loop
    `RepairThreadFrames` (with its carried `jit_fname`) is proved equal
    to it. The pass is proved idempotent.
  - The declarative schema is the predicate `SchemaOk`. Its column
    lengths are parameters.
- **Fingerprints (`Hashing`).** `_hash_backtrace` and `hash_ureport` are
  functions. `hash_list` and the ASCII rendering of file names are
  parameters.
- **Storage (`Storage`).** Symbols, symbol sources, threads, frames,
  backtraces, reports and executables are classes whose fields the
  operations update.
  - The store's lookups (`get_symbol_by_name_path`, `get_ssource_by_bpo`
    and `get_reportexe`) are maps keyed by the identity tuples.
  - The per-call caches `new_symbols` and `new_symbolsources` are maps
    handed from call to call.
- **Ingestion (`Ingest`).** `save_ureport` creates the backtrace:
  - its "NAMES" hashes;
  - threads numbered from 1;
  - frames with orders 10, 20, 30, …;
  - symbols and symbol sources shared between the store and the call's
    pending rows.
- **Retracing (`Retrace`, `RetraceTasks`).** `retrace` is modelled
  location by location:
  - it counts failed locations;
  - it unwinds inlined functions into synthetic symbol sources keyed by
    the negative source line;
  - it inserts inlined frames, using the sorted-index check exactly as
    written;
  - it resolves the outermost entry;
  - it collects the unpacked directories to remove.

  `get_base_address`, `addr2line`, `get_libname`, `os.path.abspath` and
  `demangle` are arbitrary functions in `Environment.Externals`. A
  `None` result stands for the exception they raise.
- **Helpers (`CoreHelpers`).** `_build_id_to_debug_files`,
  `check_btpath_match`, `_db_thread_validate` and the thread that
  `db_report_to_satyr` selects.
- **CentOS (`CentOS`):**
  - package-list validation;
  - the role to stored-type mapping;
  - the get-or-create package counters of `_save_packages`;
  - release statuses;
  - the affected-package NVRA matcher;
  - the `$releasever` substitution.
- **Web forms (`WebForms`):**
  - `TagListField`, `BugIdField` and `DaterangeField` as classes whose
    `ProcessFormdata` methods set `data`, with `Value` rendering it back;
  - `component_names_to_ids`;
  - the grouping of `component_list`.
- **Python built-ins (`Text`).** The string operations the code uses, on
  `seq<char>`: `split`, `join`, `strip`, `lower`, `replace`, `int()`,
  `str(int)`, the regular expressions `[\w.]+` and `id=(\d+)`, and the
  Unicode decimal digits (general category Nd) that `strptime` reads.

Errors the source raises on purpose become `Result` values that carry the
source's message. A key the source reads without checking (a `KeyError`
in Python) becomes a precondition.

## Model

| member | source | states |
|---|---|---|
| CoreReport.CrashThreadsEmpty | src/pyfaf/problemtypes/core.py:128-131 | the crash-thread list is empty exactly when no thread has `crash_thread` present and true |
| CoreReport.OneCrashThread | src/pyfaf/problemtypes/core.py:128-136 | with thread `i` flagged, the list has one entry exactly when no other thread is flagged, and it is then thread `i` |
| CoreReport.SeveralCrashThreads | src/pyfaf/problemtypes/core.py:133-134 | two or more entries exactly when two distinct positions are flagged |
| CoreReport.GetCrashThreadNone | src/pyfaf/problemtypes/core.py:128-131 | fails with "No crash thread found" iff no thread is flagged |
| CoreReport.GetCrashThreadMultiple | src/pyfaf/problemtypes/core.py:133-134 | fails with "Multiple crash threads found" iff two threads are flagged |
| CoreReport.GetCrashThreadFound | src/pyfaf/problemtypes/core.py:122-136 | succeeds iff exactly one thread is flagged, and returns that thread's frames |
| CoreReport.JitFileBeforeSpec | src/pyfaf/problemtypes/core.py:258-268 | `jit_fname` before frame `k` is None iff no earlier frame calls JIT code; otherwise it is the file name of the latest earlier JIT caller |
| CoreReport.RepairFrames | src/pyfaf/problemtypes/core.py:260-285 | the repair keeps the number of frames |
| CoreReport.RepairFramesSpec | src/pyfaf/problemtypes/core.py:260-285 | only file and function names change. A frame with a file name is untouched, except that the last frame gets a name. A frame without one after a JIT caller takes that caller's file name, and "anonymous function" only when its name is missing or "??". The last frame ends with a file name ("unknown filename" by default) and a function name other than missing or "??" |
| CoreReport.RepairedJitCaller | src/pyfaf/problemtypes/core.py:264-275 | the repair makes no new JIT caller before a frame that had none before it |
| CoreReport.RepairIdempotent | src/pyfaf/problemtypes/core.py:258-285 | repairing twice gives the same frames as repairing once |
| CoreReport.RepairThreadFrames | src/pyfaf/problemtypes/core.py:258-285 | the loop over the frames, with `jit_fname` carried across iterations, computes `RepairFrames` |
| CoreReport.RepairThreads | src/pyfaf/problemtypes/core.py:254-285 | one repaired thread per thread |
| CoreReport.RepairStacktrace | src/pyfaf/problemtypes/core.py:253-285 | the loop over the threads computes `RepairThreads` |
| CoreReport.RepairReportSpec | src/pyfaf/problemtypes/core.py:253-285 | only the stack trace changes. Threads keep their crash flag and frame count, and each non-empty thread's last frame is named |
| CoreReport.RepairReportIdempotent | src/pyfaf/problemtypes/core.py:253-285 | repairing a report twice equals repairing it once |
| CoreReport.ValidateUreport | src/pyfaf/problemtypes/core.py:245-291 | returns the repaired report. True iff the repaired report meets the schema and has exactly one crash thread; otherwise the schema error or the crash-thread message |
| Hashing.ThreadHeader | src/pyfaf/problemtypes/core.py:152-155 | the header is "Crash Thread" iff the thread's `crash_thread` is present and true |
| Hashing.FrameLines | src/pyfaf/problemtypes/core.py:157-167 | one line per frame |
| Hashing.HashBacktraceKeys | src/pyfaf/problemtypes/core.py:138-170 | at most 3 hashes, one per key among function_name, fingerprint, build_id_offset (in that order) that every frame of every thread has. Each is `hash_list` of that key's hash input. A key missing from any one frame is skipped |
| Hashing.HashBaseLength | src/pyfaf/problemtypes/core.py:151-167 | the hash input has #threads + #frames lines |
| Hashing.HashBaseUnfold | src/pyfaf/problemtypes/core.py:151-167 | the input is the first thread's header and frame lines, followed by the rest's |
| Hashing.HashBaseThread | src/pyfaf/problemtypes/core.py:151-167 | thread `i` occupies a contiguous block: its header then one line per frame, in order |
| Hashing.ValidatedReportHashes | src/pyfaf/problemtypes/core.py:141-149 | a report meeting the schema always has the build_id_offset key usable, so at least one hash |
| Hashing.ShortHashKeyChoice | src/pyfaf/problemtypes/core.py:297-302 | function_name iff every crash-thread frame has it; fingerprint iff not that but every frame has a fingerprint; otherwise build_id_offset |
| Hashing.ShortHashKeySeesAllFrames | src/pyfaf/problemtypes/core.py:297-308 | the key is chosen from all frames, even those past the `hashframes` cut |
| Hashing.ShortHashBaseShape | src/pyfaf/problemtypes/core.py:295-310 | the input is the component, then one "key @ file" line for each of the first min(#frames, hashframes) frames, in order |
| Hashing.ValidatedReportShortHash | src/pyfaf/problemtypes/core.py:293-310 | for a validated report with one crash thread, every key and file name the short hash reads is present |
| Hashing.HashUreportResult | src/pyfaf/problemtypes/core.py:293-312 | fails exactly when the crash-thread search fails, with its message. Otherwise it hashes the short hash input of the one flagged thread |
| Environment.PathJoin | src/pyfaf/problemtypes/core.py:551 | `os.path.join`: an absolute second part replaces the first; otherwise the result is the first part, at most one separator, then the second |
| Storage.GetOrCreateSymbol | src/pyfaf/problemtypes/core.py:631-643 | the symbol under the key: the stored one, else the pending one, else a fresh symbol with no nice name added to the pending map |
| Storage.AttachFrame | src/pyfaf/problemtypes/core.py:622-627 | a fresh frame with the given thread, order, symbol source and inlined flag, appended to the thread |
| Ingest.FindSymbol | src/pyfaf/problemtypes/core.py:381-398 | the frame's symbol is found through store, then pending map, then created; the pending symbols stay exactly the keys seen so far that the store lacks |
| Ingest.GetOrCreateSource | src/pyfaf/problemtypes/core.py:400-416 | the source under the key: stored, else pending, else fresh with the frame's symbol and fingerprint, no source path or line, no failures |
| Ingest.FindOrCreateSource | src/pyfaf/problemtypes/core.py:378-416 | after one more frame, the pending rows are still deduplicated and each pending source was made from the first frame with its key |
| Ingest.SaveFrame | src/pyfaf/problemtypes/core.py:378-423 | a new non-inlined frame with the given order and the source of the frame's key is appended to the thread |
| Ingest.SaveThreadFrames | src/pyfaf/problemtypes/core.py:357-423 | the thread's frames grow by one saved frame per raw frame with orders 10, 20, 30, …, and the bookkeeping covers the new frames |
| Ingest.SaveThread | src/pyfaf/problemtypes/core.py:347-423 | thread `i` is saved with number `i + 1`, its crash flag and its frames, and the threads saved earlier stay saved |
| Ingest.SaveThreads | src/pyfaf/problemtypes/core.py:346-423 | one fresh saved thread per raw thread, in order, with fresh frames, deduplicated pending rows made from the first frame with each key |
| Ingest.CountExecutable | src/pyfaf/problemtypes/core.py:317-325 | the report's executable row gains `count` (a new row starts at 0), and every other executable row keeps its count |
| Ingest.NewBacktrace | src/pyfaf/problemtypes/core.py:331-423 | a fresh backtrace is attached, with one "NAMES" hash per backtrace hash in order, and every thread and frame saved |
| Ingest.SaveUreport | src/pyfaf/problemtypes/core.py:314-426 | sets the error name to `str(signal)` and counts the executable (other executables unchanged). With no backtrace hash it fails with "Unable to get backtrace hash". A report with a backtrace keeps it. Otherwise a new backtrace with its hashes, threads numbered from 1, frames with orders 10, 20, …, and symbols and sources shared across store and call |
| Retrace.SortedIndexOrdered | src/pyfaf/problemtypes/core.py:612-614 | a frame that sorts before another by order (stable sort) has a smaller index in the sorted list |
| Retrace.SortedIndexDistinct | src/pyfaf/problemtypes/core.py:612-614 | distinct frames have distinct sorted indexes |
| Retrace.SortedIndexOfSorted | src/pyfaf/problemtypes/core.py:612-616 | when the stored frames are already in order, the sorted index is the stored position, so the check reads the true predecessor |
| Retrace.SecondPassDuplicates | src/pyfaf/problemtypes/core.py:611-627 | as written, the predecessor is read from the unsorted list: retracing twice adds the same inlined frame twice |
| Retrace.AddInlined | src/pyfaf/problemtypes/core.py:611-627 | one frame's pass keeps every existing frame and adds at most one |
| Retrace.AddInlinedAllAdds | src/pyfaf/problemtypes/core.py:611-627 | every frame the loop adds is inlined, has the synthetic source, and has order `frame.order - inl_id` for one of the source's frames |
| Retrace.InlineEntriesSize | src/pyfaf/problemtypes/core.py:571-627 | the unwinding adds at most one frame per inlined entry and frame of the source |
| Retrace.InlineEntriesAdd | src/pyfaf/problemtypes/core.py:571-627 | every added frame belongs to entry `k` (inl_id `k + 1`): inlined, with that entry's source and order `frame.order - (k + 1)` |
| Retrace.InsertInlinedFrame | src/pyfaf/problemtypes/core.py:611-627 | the thread's frames become `AddInlined` of the old ones: an inlined frame at `order - inl_id` unless the checked predecessor is already inlined with this source |
| Retrace.InlineFrames | src/pyfaf/problemtypes/core.py:611-627 | every thread of the source's frames grows as `AddInlinedAll` says for the positions of those frames |
| Retrace.BinaryPathUnder | src/pyfaf/problemtypes/core.py:551 | the binary is the source path with its leading "/" dropped, joined under the unpacked package |
| Retrace.DebugDirUnder | src/pyfaf/problemtypes/core.py:561-562 | the debug directory is `usr/lib/debug` joined under the unpacked debuginfo |
| Retrace.Locate | src/pyfaf/problemtypes/core.py:546-568 | no location when the package or debuginfo is not unpacked or the base address fails; otherwise `addr2line` at base address + offset |
| Retrace.InlineKey | src/pyfaf/problemtypes/core.py:576-581 | the synthetic key is (build id, path, −source line) |
| Retrace.InlineSource | src/pyfaf/problemtypes/core.py:580-609 | the source under the synthetic key: stored, else pending, else fresh with the entry's symbol (found or created), source file and line |
| Retrace.UnwindInlined | src/pyfaf/problemtypes/core.py:570-627 | every entry but the last has its synthetic source, and the threads grew by `InlineEntries` of those sources |
| Retrace.NiceNameFor | src/pyfaf/problemtypes/core.py:645-646 | the nice name is set, and an existing one is kept |
| Retrace.OutermostSymbol | src/pyfaf/problemtypes/core.py:631-643 | the outermost entry's symbol: stored, else pending, else fresh |
| Retrace.ResolveOutermost | src/pyfaf/problemtypes/core.py:645-650 | the source takes the symbol, file and line of the outermost entry, keeps its failure count, and the symbol's nice name is the demangled name only when it had none |
| Retrace.ResolveLocations | src/pyfaf/problemtypes/core.py:570-650 | the inlined entries unwound and the outermost entry resolved |
| Retrace.RetraceSource | src/pyfaf/problemtypes/core.py:537-650 | a failing location counts exactly one more failure and changes nothing else; an empty `addr2line` result aborts with nothing changed; otherwise the entries are unwound and resolved. Threads only grow |
| RetraceTasks.UnpackedPathsMembers | src/pyfaf/problemtypes/core.py:660-663 | a path is listed iff some binary package is unpacked there |
| RetraceTasks.CleanupPathsMembers | src/pyfaf/problemtypes/core.py:652-663 | the removed directories are exactly the unpacked debuginfo, source and binary packages |
| RetraceTasks.ProgressStep | src/pyfaf/problemtypes/core.py:537-650 | retracing item `k` extends the progress over the first `k` items to `k + 1` |
| RetraceTasks.RetraceOne | src/pyfaf/problemtypes/core.py:537-650 | the item aborts exactly on an empty `addr2line` result; otherwise its symbol source is retraced once: one more failure with nothing else changed, or the symbol of the outermost entry's function in the source's library (`get_libname`) with that entry's file and line. Its threads only grow |
| RetraceTasks.RetraceItem | src/pyfaf/problemtypes/core.py:537-650 | an item that does not abort is retraced once (one more failure, or the outermost entry's symbol, file and line), and the other items' sources are unchanged |
| RetraceTasks.RetracePackage | src/pyfaf/problemtypes/core.py:532-650 | completes iff no item has an empty result; then each item whose source occurs once in the package was retraced exactly once, taking the outermost entry's symbol, file and line when located |
| RetraceTasks.AbortedBy | src/pyfaf/problemtypes/core.py:629 | an empty result in one package makes the task abort |
| RetraceTasks.TaskProgressStep | src/pyfaf/problemtypes/core.py:532-650 | one more completed package extends the task-wide progress |
| RetraceTasks.RetraceTaskPackage | src/pyfaf/problemtypes/core.py:532-650 | the package's items retraced, and the sources of other packages' items unchanged |
| RetraceTasks.RetraceTask | src/pyfaf/problemtypes/core.py:528-663 | aborts iff some location has an empty `addr2line` result. Otherwise it removes exactly the unpacked directories, and each source that occurs once in the task was retraced once: one more failure with nothing else changed, or the symbol keyed by the outermost entry's function and the source's library, with that entry's file and line. Pending rows are fresh, and threads only grow |
| CoreHelpers.DebugFiles | src/pyfaf/problemtypes/core.py:240-243 | two paths |
| CoreHelpers.BuildIdRoundTrip | src/pyfaf/problemtypes/core.py:240-243 | the build id is read back from the second path |
| CoreHelpers.DebugFilesInjective | src/pyfaf/problemtypes/core.py:240-243 | distinct build ids give distinct debug files |
| CoreHelpers.LastCrashThreadSpec | src/pyfaf/problemtypes/core.py:440-444 | the loop keeps the last flagged thread, or None when there is none |
| CoreHelpers.LastCrashThreadOnly | src/pyfaf/problemtypes/core.py:440-444 | for a report with one crash thread, that is the thread found |
| CoreHelpers.MatchFramesTrue | src/pyfaf/problemtypes/core.py:446-450 | True iff some frame's file name matches and no earlier frame fails |
| CoreHelpers.MatchFramesFalse | src/pyfaf/problemtypes/core.py:446-452 | False iff no frame matches and every frame has a file name |
| CoreHelpers.MatchFramesErr | src/pyfaf/problemtypes/core.py:446-447 | the `KeyError` is raised iff a frame without a file name is reached before any match |
| CoreHelpers.BtpathMatchValidated | src/pyfaf/problemtypes/core.py:439-452 | on a validated report the match succeeds and is true iff some crash-thread frame's file name matches |
| CoreHelpers.CheckBtpathMatch | src/pyfaf/problemtypes/core.py:439-452 | the two loops compute `BtpathMatch` |
| CoreHelpers.FirstCrashThread | src/pyfaf/problemtypes/core.py:226-228 | the first thread with the crash flag, or None when there is none |
| CoreHelpers.SatyrThread | src/pyfaf/problemtypes/core.py:216-238 | None without backtraces or crash thread; else the first crash thread of the first backtrace when it is valid (not a lone "anonymous function" @ "unknown filename" frame), else None |
| CentOS.ValidatePackages | src/pyfaf/opsys/centos.py:174-188 | true iff the list meets the schema, every present role is allowed, and some package is affected or unpackaged reports are allowed; otherwise the schema error, the role error, or "uReport must contain affected package" |
| CentOS.RoleType | src/pyfaf/opsys/centos.py:109-114 | "CRASHED" iff affected, "SELINUX_POLICY" iff selinux_policy, "RELATED" otherwise (including no role) |
| CentOS.RoleTypeOfAllowed | src/pyfaf/opsys/centos.py:109-114 | for an allowed role, "RELATED" iff the role is absent or "related" |
| CentOS.PackageTables.RowFor | src/pyfaf/opsys/centos.py:116-165 | a package creates a row iff it is installed without a row yet, or unknown without a row yet and with a known architecture; the row has its NEVRA, type and the count |
| CentOS.PackageTables.NewRowsMembers | src/pyfaf/opsys/centos.py:107-168 | the created rows are exactly those some entry creates |
| CentOS.PackageTables.CreatedRows | src/pyfaf/opsys/centos.py:138-165 | every created row starts at `count`, and unknown rows have a known architecture |
| CentOS.PackageTables.GainIsProduct | src/pyfaf/opsys/centos.py:150-168 | an existing row gains `count` per entry naming it |
| CentOS.PackageTables.SavedStep | src/pyfaf/opsys/centos.py:108-168 | one loop iteration as a step of the row state |
| CentOS.PackageTables.SavePackages | src/pyfaf/opsys/centos.py:107-168 | existing rows gain `count` times the entries naming them; new rows are the ones `NewRows` describes, each with `count`; unknown architectures create nothing |
| CentOS.GetReleases | src/pyfaf/opsys/centos.py:196-204 | every `[\w.]+` token of either list is a key; ACTIVE when in the active list (overriding EOL), else EOL; a missing list is the `TypeError` |
| CentOS.PkgnameMatch | src/pyfaf/opsys/centos.py:227-242 | true iff some package whose role is "affected" ignoring case has a matching `name-version-release.arch` |
| CentOS.AffectedOfAllowed | src/pyfaf/opsys/centos.py:229-231 | for an allowed role, the case-insensitive test agrees with the validation's test |
| CentOS.ReleaseUrls | src/pyfaf/opsys/centos.py:207-211 | one URL per repository URL, so none without repositories |
| CentOS.ReleaseUrlsOfTemplates | src/pyfaf/opsys/centos.py:211 | every `$releasever` of a URL is replaced by the release |
| Text.Split | src/webfaf/forms.py:81 | at least one piece, none containing the separator, and joining them with it gives the input back |
| Text.SplitJoin | src/webfaf/forms.py:81 | splitting a join of separator-free pieces gives the pieces |
| Text.Strip | src/webfaf/forms.py:81 | the result is a stripped slice of the input, with only white space cut away on each side |
| Text.StripIdempotent | src/webfaf/forms.py:81 | stripping twice equals stripping once |
| Text.DecimalIn | src/webfaf/forms.py:51-53 | a code point has a digit value exactly when it lies in one of the runs of ten; the value is its offset from that run's zero |
| Text.DecimalOf | src/webfaf/forms.py:51-53 | Unicode decimal digits have values 0..9, and the ASCII digits their usual value |
| Text.DecimalsOfDigits | src/webfaf/forms.py:51-53 | a string of ASCII digits reads the same as decimal digits |
| Text.IntRoundTrip | src/webfaf/forms.py:314-324 | `int(str(i)) == i` |
| Text.SearchIdNumber | src/webfaf/forms.py:326 | the captured group is a non-empty run of digits |
| Text.FindTokens | src/pyfaf/opsys/centos.py:201-203 | every token found is a non-empty run of word characters and dots |
| Text.FindTokensOfJoin | src/pyfaf/opsys/centos.py:201-203 | the tokens of a list joined with a separator outside `[\w.]` are the list |
| Text.ReplaceJoin | src/pyfaf/opsys/centos.py:211 | replacing the pattern in a join by it equals joining by the replacement |
| WebForms.KeepStripped | src/webfaf/forms.py:81 | the kept pieces are stripped and non-empty |
| WebForms.ParseTags | src/webfaf/forms.py:81 | every tag is stripped, non-empty and comma-free |
| WebForms.TagsRoundTrip | src/webfaf/forms.py:72-82 | parsing the ", "-join of stripped, non-empty, comma-free tags gives the tags |
| WebForms.NoTagsRoundTrip | src/webfaf/forms.py:72-82 | parsing "" gives [] |
| WebForms.TagListField.ProcessFormdata | src/webfaf/forms.py:78-82 | data becomes the parsed first value, or [] with no value |
| WebForms.TagListField.Value | src/webfaf/forms.py:72-76 | "" for None or [] |
| WebForms.TagListField.ValueRoundTrip | src/webfaf/forms.py:72-82 | parsing the rendered value gives data back |
| WebForms.BugIdOf | src/webfaf/forms.py:322-329 | a value is read iff `int()` accepts it or it holds "id=" and digits; `int()` wins |
| WebForms.ParseIntRejectsLetter | src/webfaf/forms.py:323-325 | a value with a letter goes to the "id=" search |
| WebForms.SearchIdSkip | src/webfaf/forms.py:326 | the search finds the first "id=" |
| WebForms.BugIdReadBack | src/webfaf/forms.py:322-329 | `str(n)` reads back as `n`, and a URL ending in "id=<m>" as `m` |
| WebForms.LinkReadBack | src/webfaf/forms.py:322-329 | a link whose prefix has no "=" and that ends in "id=<m>" reads back as `m`: `int()` fails and the first `id=(\d+)` is the number |
| WebForms.BugIdField.ProcessFormdata | src/webfaf/forms.py:320-331 | None with no value. Succeeds iff every value is read, and then data is the last value's id. Otherwise "Invalid Bug ID", with data from the value before the first invalid one (or unchanged) |
| WebForms.BugIdField.Value | src/webfaf/forms.py:314-318 | "" exactly for None or 0 |
| WebForms.BugIdField.ValueRoundTrip | src/webfaf/forms.py:314-331 | a non-zero id renders to a value that reads back as that id; 0 renders to "" which is rejected |
| WebForms.ParseMonth | src/webfaf/forms.py:51-53 | a parsed month is 1..12 |
| WebForms.ParseDay | src/webfaf/forms.py:51-53 | a parsed day is 1..31; the second digit of `[12]\d` is any Unicode decimal digit |
| WebForms.ParseDate | src/webfaf/forms.py:51-53 | a parsed date has year 1..9999, month 1..12, day 1..31 |
| WebForms.ParseDateJoin | src/webfaf/forms.py:51-53 | three pieces without "-" read as a date exactly when the first is four Unicode decimal digits of a value from 1 and the others are a `%m` month and a `%d` day; the date is their values |
| WebForms.ArabicIndicYear | src/webfaf/forms.py:51-53 | four Arabic-Indic digits are a year `strptime` reads, with the value `int()` gives |
| WebForms.DateRoundTrip | src/webfaf/forms.py:46-68 | parsing a date formatted as `%Y-%m-%d` gives the date (years from 1000) |
| WebForms.NoColonInDate | src/webfaf/forms.py:63-68 | a formatted date has no ":" |
| WebForms.ParseDateRange | src/webfaf/forms.py:47-55 | a range is read iff the value splits into two parts at ":"; it is the two dates, or the date error when either fails |
| WebForms.DaterangeField.ProcessFormdata | src/webfaf/forms.py:46-61 | two parts: the two dates, or the error with data unchanged; otherwise (today − default_days, today) when default_days is set, else None |
| WebForms.DaterangeField.Value | src/webfaf/forms.py:63-68 | "" exactly for None |
| WebForms.DaterangeField.ValueRoundTrip | src/webfaf/forms.py:46-68 | the rendered range parses back to data |
| WebForms.IdsNamed | src/webfaf/forms.py:107-110 | the ids are exactly those of components whose name was asked for |
| WebForms.ComponentNamesToIds | src/webfaf/forms.py:98-116 | [] iff no names were given; [-1] when the first name is blank |
| WebForms.NamesToIdsSentinel | src/webfaf/forms.py:98-116 | [-1] iff names were given and the first is blank or none matches; otherwise only ids of matching components |
| WebForms.StrLessTrans | src/webfaf/forms.py:94-95 | the string order used to sort by name is transitive |
| WebForms.StrLessTotal | src/webfaf/forms.py:94-95 | two distinct names are ordered one way or the other |
| WebForms.InsertByName | src/webfaf/forms.py:94-95 | inserting keeps the entries strictly sorted by name and adds exactly one |
| WebForms.GroupByName | src/webfaf/forms.py:91-93 | one key per distinct name, holding that name's ids in table order |
| WebForms.SortedEntries | src/webfaf/forms.py:94-95 | the entries are strictly sorted by name, one per key, with the ids joined by "," |
| WebForms.ComponentList | src/webfaf/forms.py:85-95 | one entry per distinct component name, strictly sorted by name, holding that name's ids in table order joined by "," |

## Left out

- ParseDate (`WebForms.ParseDate`): accepts dates such as "2023-02-30" that are invalid in the calendar, where `strptime` raises `ValueError` (src/webfaf/forms.py:51-53); month lengths and leap years are not modelled.
- HashUreport (`Hashing.HashUreport`): its requires (a stack trace and a component, and a crash thread whose first `hashframes` frames have the chosen key and a file name) stands for the `KeyError` the source raises otherwise; validated reports meet it (`ValidatedReportShortHash`).
- HashBacktrace (`Hashing.HashBacktrace`): its requires `AllFramesNamed` (when some key is usable) stands for the `KeyError` on a frame without `file_name`; validated reports meet it.
- SavePackages (`CentOS.PackageTables.SavePackages`): its requires `Complete` (name, epoch, version, release and architecture present) stands for the `KeyError` the source raises otherwise; validated package lists meet it.
- WordsAnd (`CentOS.WordsAnd`), `CoreReport.IsComponentName` and `CoreReport.IsHex`: the checker's patterns end in `$`, which in Python also matches before one final newline. Whether a value such as "foo\n" passes depends on how pyfaf/checker.py applies the pattern; that file is not part of this model, and here a trailing newline is rejected.
- BadDate (`WebForms.BadDate`): one fixed message stands for Python's "time data '<value>' does not match format '%Y-%m-%d'"; the offending value is not part of it.
- FindTokens (`Text.FindTokens`, used by `CentOS.GetReleases`): `\w` is ASCII letters, digits and "_" only; Python's `\w` on `str` also matches other Unicode letters and digits.
- SearchIdNumber (`Text.SearchIdNumber`, used by `WebForms.BugIdOf`): `\d` is the ASCII digits only; Python's `\d` also matches other Unicode digits.
- ParseInt (`Text.ParseInt`): an optional sign and ASCII digit groups with single underscores inside surrounding white space; other Unicode digits are not accepted.
- Lower (`Text.Lower`, used by `CentOS.PkgnameMatch` and the JIT test of the repair pass): lowers ASCII letters only; Python's `str.lower` also lowers other Unicode letters.
- SavePackages (`CentOS.PackageTables.SavePackages`): lookups see only the rows present before the call. With session autoflush a package listed twice in one list would find the row the first entry added, so here it creates two rows where the source creates one.
- SaveUreport (`Ingest.SaveUreport`): its requires `SaveableReport` (signal, executable and stack trace present, every frame with a file name and a build-id offset) stands for keys the source reads without checking. The source raises `KeyError` there, and only calls it on validated reports.
- PkgnameMatch (`CentOS.PkgnameMatch`): its requires that affected packages have name, version, release and architecture stands for the `KeyError` the source raises otherwise.
- RetraceSource (`Retrace.RetraceSource`) and RetraceTask (`RetraceTasks.RetraceTask`): the frames of a symbol source are the caller's list `Item.frames`, not the live relationship `db_ssource.frames` (src/pyfaf/problemtypes/core.py:611). The two differ only when a synthetic key equals the source's own key (source line 0 at offset 0), where the live list also yields the frames just added.
- RetraceTask (`RetraceTasks.RetraceTask`): the per-source final state is stated for sources that occur once in the task; a source listed under two items is retraced twice and its final state is not stated.
- RetraceTask (`RetraceTasks.RetraceTask`): `shutil.rmtree` is modelled only as the list of directories to remove (`CleanupPaths`); the file system is not modelled.
- Locate (`Retrace.Locate`): only `FafError` from `get_base_address` is a failure (src/pyfaf/problemtypes/core.py:555); any other exception it raises would abort `retrace` and is not modelled.
- ValidateUreport (`CoreReport.ValidateUreport`) and ValidatePackages (`CentOS.ValidatePackages`): a schema violation is one fixed message; the checker library's per-field messages are not part of this model.
- RepairFrames (`CoreReport.RepairFrames`): the `isinstance` guards of the repair pass have no counterpart, because the typed report cannot hold a non-dict thread or frame or a non-list stack trace.
- ComponentNamesToIds (`WebForms.ComponentNamesToIds`): the component table is a parameter, and ids come in table order where the SQL query's order is unspecified.
- ComponentList (`WebForms.ComponentList`): the rows of the query (components that have reports) are a parameter.
- Logging (`log_debug`, `log_info`, `log_warn`) is dropped everywhere.
- Flushing the session (`flush=True`) and `db.session.add` are not modelled; new rows are fresh objects and the pending maps.
- The satyr conversion and comparison (`_db_thread_to_satyr`, `compare`, `find_crash_function`) are foreign-library calls with floating-point distances; only the selection of the thread in `db_report_to_satyr` is modelled.
- The retrace query builders `_get_ssources_for_retrace_query` and `find_packages_for_ssource` are database queries; a task is given as a value.
- `hash_list`, `get_libname`, `os.path.abspath`, `get_base_address`, `addr2line`, `demangle`, the ASCII rendering of file names and the date arithmetic of `DaterangeField` are parameters; `date.today()` is a parameter.
- The configuration loaded in `CoredumpProblem.__init__` and `CentOS.__init__` (`hashframes`, `cutthreshold`, `normalize`, `allow_unpackaged`, the release lists, `repo_urls`) enters as parameters; `cmpframes`, `cutthreshold`, `normalize` and `skipsrc` are read by no modelled operation.
- `CentOS.get_components` lists source packages through dnf; only the `$releasever` substitution is modelled. `install`, `installed`, `get_build_candidates`, `validate_ureport` (an empty checker) and `save_ureport` (which only calls `_save_packages`) are left out.
- `get_component_name` and `save_ureport_post_flush` return a field or only log.
- The forms' `caching_key` (a SHA-1 of a Python `str` of tuples), the query-backed select fields and the form classes are web plumbing.
- src/webfaf/webfaf_main.py and src/webfaf/reports/forms.py (Flask wiring and Django form plumbing) are not part of this model.
