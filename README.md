# crashdetect: the symbol store and the crash reporter

This project models the core of the crashdetect plugin for the SA-MP server. The plugin watches Pawn scripts (AMX instances) and reports what went wrong: run-time errors of the abstract machine, natives that fail, crashes of the server and keyboard interrupts. A report carries a backtrace of the native/public call history whenever there is a script to attribute it to; a crash with no call on the history gives a single line. Native-failure, run-time-error and interrupt reports end by applying the abort policy (die_on_error).

There are two parts:

- **The symbol store (`AmxDebugInfo`, amx_debug_info.dfy).** It holds the tables of a script's debug information: files, lines, symbols and tags, in file order. It answers lookups over them:
  - the line and the file that cover a code address, found by a forward scan that keeps the last entry at or below the address;
  - the function whose code range `[codeStart, codeEnd)` holds an address, found by a first-match scan that skips forwarded publics whose names start with `@`;
  - a tag by its id;
  - the name and number wrappers, which answer `""` when nothing is found;
  - an array symbol's dimensions;
  - the value of a symbol. Its address is code-relative, data-relative or frame-relative, following the addressing rule of the Pawn Implementer's Guide.

  The loops are methods with invariants. Each is proved equal to a specification function: `ScanLength`/`LastIndex`, `FirstFunctionAt` or `FirstTag`. Lemmas about those functions state what a lookup finds.
- **The reporter (`CrashDetect`, crashdetect.dfy).** Class `CrashDetect` holds the state the C++ keeps in static members:
  - the call history `npCalls`, a stack whose top is the last element;
  - the double-report flag `errorCaught`;
  - the instance registry `instances`, a map from AMX to instance;
  - the log: every line emitted, as abstract `Event`s, together with a marker (`AmxErrorCalled`) for each call to `amx_Error`, which prints nothing itself.

  Its methods are the execution hooks, the error, crash and interrupt handlers, and the backtrace printer. Each handler carries two promises:
  - it leaves the history as it found it;
  - it appends exactly the report that the pure functions of `Diagnostics` (diagnostics.dfy) describe.

  `HistoryWalk` (history_walk.dfy) holds the shape of the backtrace walk: top entry first, each entry walked from the frame pointer recorded by the entry above it, and the `#n` numbering carried across entries. It proves these facts once, for any per-entry printer (a `Walker`). `Diagnostics` then proves the user-visible properties:
  - the numbering runs 0, 1, 2, … without gaps;
  - a public entry whose frames cannot be followed yields "Stack corrupted" and the walk goes on;
  - with no debug information loaded, no line names a source file;
  - for an unresolved native, exactly the natives with a zero address are listed, in table order.

`AmxHost` (amx_host.dfy) holds the reporter's view of its surroundings:
- the Pawn error codes and the `Amx` handle, whose registers are constants and whose `error` field is the one field the reporter writes;
- call-history entries, reconstructed frames and log events;
- `Host`, which collects what the reporter calls but does not own as functions. These are the frame-chain walker `AMXCallStack`, the OS module lookup, the native and public table accessors, and the `die_on_error` option.

Code that runs between entering and leaving a hook (`amx_Exec`, the previous native callback and `amx_Error`) is a parameter: a function from the call history in effect while it runs to a `HostStep` or an `ErrorHook`, which says what that code returned and logged. The hooks pass it the history with their own entry pushed (`Entered`), so their contracts pin down which entry each nested call runs under.

Three points where the model follows the code as written:
- The line "native ?? from %s" passes the null native name where the module name belongs, so `NativeUnnamed` carries no module name.
- `PrintBacktrace` looks up the debug information of each public entry's own AMX. It labels address-only frames with the reporting instance's script name. The model does both.
- `HandleNativeError` has two branches on `IsLoaded` that print the same line, so the model has one.

## Model

| member | source | states |
|---|---|---|
| AmxDebugInfo.DebugInfo.IsLoaded | src/amxdebuginfo.cpp:95-97 | the store is loaded exactly when it holds tables; a store that is not loaded is always safe to query |
| AmxDebugInfo.AsUcell | src/amxdebuginfo.cpp:54-56 | the `static_cast<ucell>` of a cell is congruent to it modulo 2^32 and lies in [0, 2^32) |
| AmxDebugInfo.ScanLength | src/amxdebuginfo.cpp:119-123 | the forward scan stops at the first entry above the address; every entry before the stop is at or below it |
| AmxDebugInfo.LastIndex | src/amxdebuginfo.cpp:117-124 | on a non-empty table, the index the scan leaves in `last` is a valid index |
| AmxDebugInfo.ScanLengthUnique | src/amxdebuginfo.cpp:119-123 | any stopping point with the scan's two properties is the scan's stopping point |
| AmxDebugInfo.LastIndexIsLastAtOrBelow | src/amxdebuginfo.cpp:114-141 | on a sorted table whose first address is at or below A, the lookup settles on an entry at or below A, and every later entry is above A |
| AmxDebugInfo.LastIndexBeforeFirst | src/amxdebuginfo.cpp:117-124 | when A precedes every entry, the lookup returns the first entry, not "none" |
| AmxDebugInfo.LastIndexInRange | src/amxdebuginfo.cpp:114-141 | on a sorted table, every address from entry k's address up to the next entry's address resolves to entry k |
| AmxDebugInfo.GetLine | src/amxdebuginfo.cpp:114-127 | the scan loop returns the covering entry with its line made one-based (stored line + 1) |
| AmxDebugInfo.GetFile | src/amxdebuginfo.cpp:129-141 | the scan loop returns the covering file entry |
| AmxDebugInfo.IsBuggedForward | src/amxdebuginfo.cpp:143-148 | a symbol is a bugged forward exactly when its name has "@" as a prefix (an empty name never is) |
| AmxDebugInfo.FirstFunctionAt | src/amxdebuginfo.cpp:150-164 | the index of the first symbol that is a function, holds the address in [codeStart, codeEnd) and is not an `@` forward; no earlier symbol is such |
| AmxDebugInfo.FunctionAtIsFirstMatch | src/amxdebuginfo.cpp:143-164 | the lookup finds nothing exactly when no symbol matches; otherwise it finds the first match in table order |
| AmxDebugInfo.FunctionAtFilters | src/amxdebuginfo.cpp:154-159 | the lookup never yields a non-function, a symbol whose name starts with `@`, or a function whose range misses the address |
| AmxDebugInfo.FirstFunctionAtUnique | src/amxdebuginfo.cpp:153-162 | any index with the first-match properties is the first match |
| AmxDebugInfo.GetFunction | src/amxdebuginfo.cpp:150-164 | the `continue`/`break` loop returns exactly the first matching function, or none |
| AmxDebugInfo.FirstTag | src/amxdebuginfo.cpp:169-173 | the scan stops at the first tag with the id; no earlier tag has it |
| AmxDebugInfo.TagAtIsFirstMatch | src/amxdebuginfo.cpp:166-178 | the tag lookup finds nothing exactly when no tag has the id; otherwise it finds the first such tag |
| AmxDebugInfo.GetTag | src/amxdebuginfo.cpp:166-178 | the search loop returns the first tag with the id, or none |
| AmxDebugInfo.LineNumberInRange | src/amxdebuginfo.cpp:180-186 | on a sorted line table, an address in entry k's range has line number stored line + 1 |
| AmxDebugInfo.FileNameInRange | src/amxdebuginfo.cpp:188-195 | on a sorted file table, an address in entry k's range has entry k's file name |
| AmxDebugInfo.NameWrappersMiss | src/amxdebuginfo.cpp:197-213 | the function and tag name wrappers give "" on a miss and the found entry's name on a hit |
| AmxDebugInfo.GetLineNumber | src/amxdebuginfo.cpp:180-186 | returns the one-based line number of the covering line entry |
| AmxDebugInfo.GetFileName | src/amxdebuginfo.cpp:188-195 | returns the name of the covering file entry |
| AmxDebugInfo.GetFunctionName | src/amxdebuginfo.cpp:197-204 | returns the found function's name, or "" |
| AmxDebugInfo.GetTagName | src/amxdebuginfo.cpp:206-213 | returns the name of the tag found for the address read as a signed 32-bit id, or "" |
| AmxDebugInfo.AsCell | src/amxdebuginfo.cpp:206-208 | the `ucell` to `int` conversion of the tag id: the one signed 32-bit value congruent to the address mod 2^32, the address itself below 2^31 |
| AmxDebugInfo.GetDims | src/amxdebuginfo.cpp:32-41 | an array or array reference with numDims > 0 yields exactly its numDims dimensions, in order; any other symbol yields none |
| AmxDebugInfo.GetValue | src/amxdebuginfo.cpp:43-65 | address > cod reads code+address; dat < address < cod reads data+address; every other address (address == cod, or address < cod and address ≤ dat) reads data+frm+address, with frm 0 replaced by the AMX's frame register |
| AmxDebugInfo.AbsoluteValueIgnoresFrame | src/amxdebuginfo.cpp:54-58 | the code- and data-relative buckets do not depend on the frame arguments |
| AmxDebugInfo.ZeroFrameIsCurrentFrame | src/amxdebuginfo.cpp:60-63 | asking for frame 0 is asking for the AMX's current frame |
| HistoryWalk.Top | src/crashdetect.cpp:331-423 | the top entry is printed first; the entries below it are walked from the frame pointer it recorded, numbered after its lines |
| HistoryWalk.One | src/crashdetect.cpp:331-423 | walking a single entry prints exactly that entry's lines |
| HistoryWalk.Split | src/crashdetect.cpp:331-423 | the walk of a stretch of entries is the walk of its upper part followed by the walk of its lower part, from the frame pointer the upper part hands on and numbered where it stopped |
| HistoryWalk.SplitWidth | src/crashdetect.cpp:331-423 | the numbers used by the upper and the lower part add up to those of the whole |
| HistoryWalk.Step | src/crashdetect.cpp:331-423 | one iteration of the top-down loop: after entries k.., entry k-1 is walked from the frame pointer they hand on, numbered from where they stopped |
| HistoryWalk.ConsecutiveAt | src/crashdetect.cpp:328-329 | helper for Numbered and Diagnostics.BacktraceNumbering: in the run of n numbers starting at d (the "#n" numbers of lines printed from depth d), the k-th is d + k |
| HistoryWalk.ConsecutiveAppend | src/crashdetect.cpp:328-329 | helper for Numbered: n numbers from d followed by m numbers from d + n are n + m numbers from d |
| HistoryWalk.FrameDepthsAppend | src/crashdetect.cpp:331-423 | helper for Numbered and Diagnostics.BacktraceNumbering: the "#n" numbers of two runs of lines are those of the first followed by those of the second |
| HistoryWalk.NumberedAppend | src/crashdetect.cpp:331-423 | helper for Numbered: two consecutively numbered runs, the second continuing the first, form one consecutively numbered run |
| HistoryWalk.Numbered | src/crashdetect.cpp:328-423 | when every entry numbers its lines consecutively, the whole walk does, with as many numbers as its total width |
| HistoryWalk.WithoutSource | src/crashdetect.cpp:331-423 | when no entry prints a source-level line, the walk prints none |
| Diagnostics.Offset | src/crashdetect.cpp:380-408 | the `ucell` difference of two addresses is congruent to their difference modulo 2^32, and equals it when no wrap occurs |
| Diagnostics.NativeLine | src/crashdetect.cpp:334-349 | a native entry gives one "#n" line with the walk's number; it names nothing exactly when the native's address is 0, and any module name it shows is non-empty ("??" for an unknown module) |
| Diagnostics.FrameLineShape | src/crashdetect.cpp:361-416 | a frame gives one "#n" line with the walk's number; it names a source file and line exactly when the entry's AMX has its symbol store loaded |
| Diagnostics.BacktraceLinesShape | src/crashdetect.cpp:320-426 | a backtrace is empty exactly when the history is, and otherwise opens with the header line |
| Diagnostics.ReadyWalkable | src/crashdetect.cpp:352-353 | every native entry can be walked, and so can every public entry whose AMX has an instance |
| Diagnostics.WalkStep | src/crashdetect.cpp:331-423 | one loop iteration with the reporter's own entry printer: the next entry's lines and depth advance follow the lines so far, and the loop's frm becomes that entry's recorded frm |
| Diagnostics.BacktraceTopFirst | src/crashdetect.cpp:320-423 | a backtrace is the header, the top entry walked from the reporting AMX's frame and numbered from 0, then the rest walked from the frame pointer the top entry recorded |
| Diagnostics.CorruptedEntry | src/crashdetect.cpp:355-358 | a public entry with no frames prints only "Stack corrupted" and uses no number |
| Diagnostics.WalkPastCorruptedEntry | src/crashdetect.cpp:355-358 | after "Stack corrupted" the walk goes on with the entry below, at the same number |
| Diagnostics.FrameLinesDepths | src/crashdetect.cpp:360-422 | the frame lines of a public entry are numbered consecutively, one per frame |
| Diagnostics.EntryLinesDepths | src/crashdetect.cpp:333-422 | a native entry uses one number, a public entry one per frame |
| Diagnostics.BacktraceNumbering | src/crashdetect.cpp:328-423 | the "#n" lines of a backtrace are numbered 0, 1, 2, … without gaps, one per native entry and one per public frame |
| Diagnostics.FrameLinesWithoutDebugInfo | src/crashdetect.cpp:376-419 | a public entry without debug information prints no source-level line |
| Diagnostics.BacktraceWithoutDebugInfo | src/crashdetect.cpp:360-419 | when no instance has debug information loaded, no backtrace line names a source file and line |
| Diagnostics.Unregistered | src/crashdetect.cpp:281-287 | the list of natives not registered has at most one line per table entry, and only "not registered" lines |
| Diagnostics.UnregisteredAppend | src/crashdetect.cpp:282-287 | the list of unregistered natives of a table is that of its first part followed by that of the rest |
| Diagnostics.UnregisteredExactly | src/crashdetect.cpp:276-288 | a native name is listed exactly when some table entry with that name has address 0, and every listed line names such a native |
| Diagnostics.ErrorDetail | src/crashdetect.cpp:266-304 | the switch adds lines exactly for the bounds, missing-native, stack, stack-low, heap-low and invalid-instruction codes; one line each, except the missing-native case, which opens with its header and lists the natives |
| Diagnostics.ExitLines | src/crashdetect.cpp:160-165 | the abort line appears exactly when die_on_error is set, and nothing else does |
| Diagnostics.RuntimeErrorReport | src/crashdetect.cpp:259-308 | a run-time error report is empty exactly for the index error of the GDK entry point |
| Diagnostics.RuntimeErrorReportShape | src/crashdetect.cpp:259-307 | every other report opens with the error line followed by the code-specific lines, and ends by applying the abort policy |
| Diagnostics.BoundsDetail | src/crashdetect.cpp:267-275 | a bounds error reports the negative-index line when pri < 0 and the past-upper-bound line, with the bound read before cip, otherwise |
| CrashDetect.Loaded | src/crashdetect.cpp:91-96 | after a load the AMX has an instance; an existing instance is kept; otherwise the new one is installed; other keys are unchanged |
| CrashDetect.Unloaded | src/crashdetect.cpp:99-102 | after an unload the AMX has no instance; other keys and their instances are unchanged |
| CrashDetect.LoadedIdempotent | src/crashdetect.cpp:91-96 | loading the same AMX twice is loading it once |
| CrashDetect.UnloadedUndoesLoaded | src/crashdetect.cpp:91-102 | unloading an AMX that was just loaded restores the registry |
| CrashDetect.LoadedKeepsExisting | src/crashdetect.cpp:91-96 | an AMX that already has an instance keeps it |
| CrashDetect.LoadedKeepsInvariants | src/crashdetect.cpp:91-114 | loading keeps every symbol store queryable and every public entry of the history registered |
| CrashDetect.UnloadedKeepsRegistered | src/crashdetect.cpp:99-102 | unloading keeps every public entry registered exactly when the unloaded AMX has no public entry on the history |
| CrashDetect.CrashDetect.constructor | src/crashdetect.cpp:57-60 | the static state starts with an empty history, the flag clear, an empty registry and nothing logged |
| CrashDetect.CrashDetect.AmxLoad | src/crashdetect.cpp:91-96 | the registry becomes `Loaded` of the old one; returns AMX_ERR_NONE |
| CrashDetect.CrashDetect.AmxUnload | src/crashdetect.cpp:99-102 | the registry becomes `Unloaded` of the old one; returns AMX_ERR_NONE |
| CrashDetect.CrashDetect.GetInstance | src/crashdetect.cpp:105-114 | returns the existing instance, or inserts and returns the new one; either way the AMX then has that instance |
| CrashDetect.CrashDetect.HandleAmxExec | src/crashdetect.cpp:208-221 | amx_Exec and amx_Error run on the history with `Call(Public, amx, index, frm)` pushed, and the history is unchanged on exit; amx_Error is called, after what the public logged, exactly when the return code is not AMX_ERR_NONE and no handler caught the error; otherwise the flag is cleared; the return code is passed back |
| CrashDetect.CrashDetect.HandleAmxCallback | src/crashdetect.cpp:223-243 | the previous callback runs on the history with `Call(Native, amx, index, frm)` pushed, and the history is unchanged on exit; the AMX error is AMX_ERR_NONE on exit; the native failure report, on the history with the native pushed, follows exactly when the callback left AMX_ERR_NATIVE; the callback's return code is passed back |
| CrashDetect.CrashDetect.HandleNativeError | src/crashdetect.cpp:245-257 | appends the native's name (or "??"), the backtrace and the abort policy |
| CrashDetect.CrashDetect.HandleRuntimeError | src/crashdetect.cpp:259-308 | always sets the flag; appends exactly the run-time error report (nothing for the phantom GDK index error) |
| CrashDetect.CrashDetect.PrintErrorDetail | src/crashdetect.cpp:266-304 | appends the error-specific lines, including the loop over the native table |
| CrashDetect.CrashDetect.HandleCrash | src/crashdetect.cpp:310-313 | appends the script name line and the backtrace |
| CrashDetect.CrashDetect.HandleInterrupt | src/crashdetect.cpp:315-318 | appends the interrupt line and the backtrace |
| CrashDetect.CrashDetect.ExitOnError | src/crashdetect.cpp:160-165 | appends "Aborting" exactly when die_on_error is set |
| CrashDetect.CrashDetect.AmxExec | src/crashdetect.cpp:127-129 | finds or creates the instance, then behaves as HandleAmxExec, with amx_Exec and amx_Error run under the pushed public entry |
| CrashDetect.CrashDetect.AmxCallback | src/crashdetect.cpp:122-124 | finds or creates the instance, then behaves as HandleAmxCallback |
| CrashDetect.CrashDetect.RuntimeError | src/crashdetect.cpp:144-146 | finds or creates the instance, then behaves as HandleRuntimeError |
| CrashDetect.CrashDetect.Crash | src/crashdetect.cpp:132-141 | an empty history gives the single "unknown error" line and no backtrace; otherwise the crash report of the AMX at the top of the history |
| CrashDetect.CrashDetect.Interrupt | src/crashdetect.cpp:149-157 | an empty history gives the interrupt line alone; otherwise the interrupt report of the top AMX; the abort policy applies in both cases |
| CrashDetect.CrashDetect.PrintBacktrace | src/crashdetect.cpp:320-426 | appends exactly the backtrace of the history: nothing for an empty history, else the header and the top-first walk; `depth` and `frm` follow the walk; the history is not changed |
| CrashDetect.CrashDetect.PrintEntry | src/crashdetect.cpp:331-420 | appends one history entry's lines ("Stack corrupted" for a public entry without frames) and returns how many numbers they use |
| CrashDetect.CrashDetect.PrintFrames | src/crashdetect.cpp:360-420 | the frame loop appends one line per frame, numbered consecutively |
| CrashDetect.CrashDetect.PrintNative | src/crashdetect.cpp:333-348 | the native line: "??" for a zero address; the module name, or "??" when it is empty; the native's name when known |
| CrashDetect.CrashDetect.PrintFrame | src/crashdetect.cpp:361-418 | one frame line: with debug information, the prototype, the file and the line of the call site, or of cip for the innermost frame; without, the public name or address with the unsigned offset, and for the entry point main(), the public or "??" |

## Left out

- Loading and freeing symbol stores (AMXDebugInfo::Load, Free, FreeAmxDbg, the destructor) are file I/O and memory management. A store is loaded or not (`Option<Tables>`).
- HasDebugInfo, GetFunctionAddress and GetLineAddress are thin wrappers over the `amx_Flags` and `dbg_*` library, whose code is not part of this model.
- crashdetect::Load patches machine code and registers OS crash and signal handlers.
- The instance constructor's script search path, its flag check and its hook installation are left out. An instance arrives ready-made, with its script name and symbol store. HandleAmxDebug, which only forwards to the previous debug hook, is left out too.
- GetModuleNameBySymbol (dladdr/VirtualQuery), the AMXCallStack frame walker and the amxutils table accessors are functions in `Host`. Their code is not part of this model.
- `amx_Exec`, the previous native callback and `amx_Error` are parameters: their return code, the AMX error and flag they leave, and what nested handlers logged.
- Log lines are abstract events. printf rendering (`%-2d`, `%x`) and StripDirs on file names are not modelled.
- ExitOnError: reading server.cfg is the `dieOnError` setting. `std::exit` is not modelled: the model logs `Aborting` and carries on.
- The asynchronous context of Crash and Interrupt (signal handlers, other threads) is not modelled. Each runs as an ordinary call on the current state.
- The AMX registers are constants: nested code between push and pop does not move them.
- AmxDebugInfo.GetValue: the byte addresses `code + address`, `data + address` and `data + frm + address` are unbounded sums, so their 32-bit pointer wrap is not modelled. It matters for `code + address` in particular: a local at a negative frame offset (say `AsUcell(-4)`) lies above `cod`. The model then reads at `cod + 0xFFFFFFFC`, while a 32-bit server reads `code - 4`.
- AmxDebugInfo.GetLineNumber: the line is an unbounded integer. The `int32_t` result and the `long` conversion are not modelled.
- AmxDebugInfo.GetLine: requires a non-empty table, and so does every line or file query. The C++ dereferences `begin()` of an empty table.
- AmxDebugInfo.GetLineNumber: the model assumes that every line the lookup returns tests true in `if (line)`, so it always answers that entry's one-based number. The truth test is defined in amxdebuginfo.h, which is not part of this model; the 0 returned when the test fails is not modelled.
- AmxDebugInfo.GetFileName: the model assumes likewise that `if (file)` holds for every returned file entry, so it always answers that entry's name. The "" returned when the test fails is not modelled.
- CrashDetect.CrashDetect.PrintBacktrace: requires every public entry of the history to have an instance; so do HandleNativeError, HandleCrash, HandleInterrupt, Crash and Interrupt, and HandleAmxCallback, AmxCallback, HandleRuntimeError and RuntimeError on the paths that print a backtrace (AMX_ERR_NATIVE left by the callback; any error except the phantom GDK index error). `instances_[amx]` on a missing AMX inserts a null pointer and dereferences it, which is undefined behaviour. The entry points AmxCallback, RuntimeError, Crash and Interrupt need this only of the other AMXs on the history: they register their own AMX first (through GetInstance), so their requirement is stated on the registry after that registration.
- CrashDetect.CrashDetect.HandleAmxExec, CrashDetect.CrashDetect.HandleAmxCallback, CrashDetect.CrashDetect.AmxExec, CrashDetect.CrashDetect.AmxCallback: the code run inside `amx_Exec`, the previous native callback or `amx_Error` is assumed not to load, unload or register an AMX. `HostStep` and `ErrorHook` carry no registry, and `instances` is not in these methods' modifies clauses. A nested AmxExec or AmxCallback for another AMX (which registers it through GetInstance) and a nested AmxLoad or AmxUnload are not modelled. So `instances == Loaded(old(instances), amx, created)` holds on exit only under this assumption, and the NATIVE-path registration requirement is stated on the registry as it stood before the callback ran.
- CrashDetect.CrashDetect.AmxLoad, CrashDetect.CrashDetect.GetInstance, CrashDetect.CrashDetect.AmxExec, CrashDetect.CrashDetect.AmxCallback, CrashDetect.CrashDetect.RuntimeError, CrashDetect.CrashDetect.Crash, CrashDetect.CrashDetect.Interrupt: require the new instance's symbol store to be queryable (non-empty line and file tables when loaded), because the class invariant keeps every registered store so. The C++ accepts any store; an empty table only goes wrong when a backtrace queries it.
- CrashDetect.CrashDetect.HandleRuntimeError: requires the cell before cip to be in the memory map for a bounds error or an invalid instruction, since it reads that cell.
