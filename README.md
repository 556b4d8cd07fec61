# Visual Leak Detector (vld.cpp 0.9d, utility.cpp 1.0) — a verified model of its core

Visual Leak Detector (VLD) finds memory leaks in programs built against
Microsoft's debug C runtime. When it is constructed it registers an
allocation hook with the CRT debug heap. From then on:

- every allocation, reallocation and free passes through that hook;
- the hook records, in a ledger keyed by the CRT's allocation request
  number, the call stack of each live block;
- the hook chains every call on to the hook it displaced.

When the program exits, the detector's destructor walks the CRT's list of
allocated blocks. It reports every block that the ledger still tracks:
- the block's header line;
- its call stack, resolved to source lines and function names by the
  debug help library, with frames inside the heap and the detector left
  out;
- a hex and text dump of its data.

After that it checks the list for blocks of its own and prints a summary.

The utility part of the core provides the rest:
- the report sink, with its length cap, encoding and output file;
- the hex dumps;
- Import Address Table (IAT) patching;
- two string helpers.

The two core files come from different releases: `vld.cpp` is version
0.9d and `utility.cpp` is version 1.0. `buildsymbolsearchpath` in `vld.cpp`
works on narrow `char` strings and calls a narrow `strapp`, whose body is
not part of this model; the model uses `utility.cpp`'s wide `strapp` in its
place.

The model is split into these modules:

- `Common`: `Option`, bytes and wide characters, and C strings: the text
  up to the first terminator.
- `Strings`: `strapp`, `strtobool`, and the C runtime services these
  rely on: case-insensitive comparison, `strstr` and `wcstol`.
- `CallStacks`: `getstacktrace`. The platform stack walker is a
  sequence of steps.
- `Messages`: the lines the detector reports, as a datatype.
- `Detector`: the class `VisualLeakDetector`. It covers:
  - the constructor;
  - `allochook`, `hookmalloc`, `hookfree` and `hookrealloc`;
  - the destructor;
  - properties of the ledger over a run of heap events.
- `Leaks`: `reportleaks` and the destructor's self-check. It covers:
  - frame suppression;
  - the leaked blocks and the summary count;
  - what the report says.
- `Dump`: `dumpuserdatablock`, `dumpmemorya` and `dumpmemoryw`. These
  are imperative loops over fixed-size line buffers, proved equal to
  line-by-line specification functions.
- `SearchPath`: `buildsymbolsearchpath`. It covers:
  - the command-line token scan;
  - the cut after the last backslash;
  - the appended directories;
  - quote deletion.
- `ImportPatching`: `patchimport`, `restoreimport`, `patchmodule` and
  `restoremodule`, which work on a module's thunk memory as an array.
- `Reporting`: the report sink of `utility.cpp` (the class `Reporter`)
  and the message buffer of `vld.cpp`'s `report`.

## Model

| member | source | states |
|---|---|---|
| Detector.VisualLeakDetector.constructor | vld.cpp:132-150 | With the debug help library linked, the detector is installed, the displaced hook becomes the old hook and the "installed" line is reported. Otherwise it is not installed and says so. The ledger starts empty. |
| Detector.VisualLeakDetector.AllocHook | vld.cpp:247-287 | A re-entrant call, or one for a CRT block, is only forwarded. Any other call updates the ledger as `Step` says. An unknown hook type is reported. The old hook is called last and its status returned (1 when there is none). The re-entrancy flag is restored. |
| Detector.VisualLeakDetector.HookMalloc | vld.cpp:600-606 | The request number maps to the freshly captured call stack. The ledger update's own heap calls are forwarded before the record. |
| Detector.VisualLeakDetector.HookFree | vld.cpp:579-584 | The request number from the freed block's header leaves the ledger, and nothing else changes. |
| Detector.VisualLeakDetector.HookRealloc | vld.cpp:621-628 | The header's request number is erased and then re-recorded with the new call stack. |
| Detector.VisualLeakDetector.Destructor | vld.cpp:154-197 | When installed, the output is, in this order: the premature-unhook warning (only when the hook was replaced), the leak report of the ledger as it stood, the self-check report, and the exiting line. The ledger is freed. When not installed, nothing happens. |
| Detector.BypassOnlyForwards | vld.cpp:252-260 | A bypassed call leaves the ledger unchanged. Its only effect is one call to the old hook, if there is one. |
| Detector.TrackedCallChainsOnceLast | vld.cpp:261-286 | On the tracking path the old hook is called for the call itself exactly once, last, right after the record or erase. The only other calls to it are the forwarded internal heap events. |
| Detector.TrackChangesOneKey | vld.cpp:264-280 | Alloc and realloc leave the key mapped to the captured stack. Free leaves the key absent. Every other key keeps its presence and its stack. |
| Detector.FreeOfUntrackedIsNoOp | vld.cpp:579-584 | Freeing a block the ledger does not hold leaves the ledger unchanged. |
| Detector.RunLedger | vld.cpp:247-287 | After a run of heap events, a block is in the ledger exactly when the last event about it was not a free. It then maps to the stack that event captured. With no event about it, it keeps its earlier entry. |
| Detector.AllFreedLeavesNoLeaks | vld.cpp:579-606 | Starting from an empty ledger, a run in which every block's last event is a free leaves the ledger empty. |
| CallStacks.GetStackTrace | vld.cpp:521-567 | At most maxFrames steps are taken. Every pushed frame came from a successful step with a non-zero frame pointer, in walk order. The capture stops only at the cap, at a failed step or at a zero frame pointer. The result equals `Captured`. |
| CallStacks.CapturedIsCapture | vld.cpp:552-566 | The capture function has the capture property. |
| CallStacks.CaptureIsUnique | vld.cpp:552-566 | Only one stack has the capture property, so the method's result is determined by the walk. |
| Leaks.ShownFramesMembers | vld.cpp:821-836 | A frame is shown exactly when it is in the stack and is not in a heap or detector source file (unless useless frames were asked for). |
| Leaks.AllFramesShown | vld.cpp:829-836 | With `_VLD_showuselessframes` set, every frame is shown, in order. |
| Leaks.UnresolvedFrameShown | vld.cpp:824-855 | A frame without a known source line is never suppressed. In the corrected section it is shown by address and function name. |
| Leaks.ReportCallStack | vld.cpp:821-856 | The frame loop writes exactly the call stack section: shown frames in order, each by source line or by address. |
| Leaks.LeakedMembers | vld.cpp:802-809 | A block is reported exactly when it is on the list, is not the detector's own, and its request number is in the ledger. |
| Leaks.LeakCountIsLedgerSize | vld.cpp:802-867 | If request numbers on the list are unique and every tracked block is still on the list, the number of leaks found equals the ledger's size. |
| Leaks.BlocksReportShape | vld.cpp:802-867 | The walk gives one header per leaked block, in list order. The "Detected memory leaks" warning appears exactly once when there is a leak, and first. The walk reports nothing when nothing leaked. |
| Leaks.ReportedTotal | vld.cpp:869-876 | Under the ledger's invariants, the lines right after the walk are "No memory leaks detected." for an empty ledger. Otherwise they are the total, equal to the ledger's size, ended by "s." for more than one leak and "." for one. The walk then starts with the warning. |
| Leaks.EmptyLedgerReportsNoLeaks | vld.cpp:759-882 | With an empty ledger and a working symbol handler, the whole report is the one "No memory leaks detected." line. |
| Leaks.ReportBlocks | vld.cpp:799-867 | The block walk produces the specified walk report, and its counter is the number of leaked blocks. |
| Leaks.ReportLeaks | vld.cpp:759-882 | The symbol search path is the one the path builder specifies. The lines are: the symbol handler's initialisation warning, the walk, the summary, and the cleanup warning. |
| Leaks.SelfCheckCounts | vld.cpp:176-193 | The self-check raises the internal-leak error exactly once per block of the detector's own, and says nothing when there are none. |
| Leaks.SelfCheck | vld.cpp:176-193 | The self-check walk produces the specified self-check report. |
| Leaks.StaleSourceLine | vld.cpp:780-855 | Counterexample: a resolved frame followed by an unresolved one is printed at the first frame's file and line as written. The corrected section prints it by address. |
| Leaks.AsWrittenAgreesWhenResolved | vld.cpp:820-855 | When every frame resolves, the report as written equals the corrected call stack section. |
| Dump.PaddedLength | vld.cpp:428-436 | The dump length is a multiple of 16, at least the data length and less than 16 more. |
| Dump.PaddedLengthIsLeast | utility.cpp:65-72 | The dump length is the least multiple of 16 that holds the region. |
| Dump.Hex2Decodes | vld.cpp:446-447 | "%.2X" reads back: the two digits give the byte. |
| Dump.AscCell | vld.cpp:449-454 | The text column shows the byte itself when it is printable and not a space. It shows '.' otherwise and for padding. |
| Dump.WordChar | utility.cpp:163-169 | A wide text cell shows '.' for 0x0000 and 0x0020 and the word itself otherwise. |
| Dump.DumpRowsLine | vld.cpp:461-466 | Line r of a dump shows bytes 16r to 16r+15. There is one line per 16 padded bytes. |
| Dump.DumpLineShowsBytes | vld.cpp:442-466 | In each line, each hex cell of a byte in the region decodes to that byte, and padding cells are blank. Each text cell is the byte itself or '.' as `isgraph` decides. |
| Dump.DumpUserDataBlock | vld.cpp:413-478 | The "Data:" label, then the dump of at most `_VLD_maxdatadump` bytes of the block, padded to whole lines. |
| Dump.DumpMemoryA | utility.cpp:52-114 | The output is the whole region, padded to whole lines, as the line-by-line specification gives it. |
| Dump.DumpMemoryW | utility.cpp:128-195 | The output is the hex column plus one wide character per byte pair, reading a word only when both of its bytes are in the region. |
| Dump.AsWrittenReadsPastRegion | utility.cpp:162 | For an odd-sized region, the guard as written lets the last byte's word be read although its second byte is outside the region. |
| Dump.GuardsDifferOnlyAtLastOddByte | utility.cpp:153-180 | That is the only byte where the two guards differ. The next iteration is in range, in the same line, and writes the same text slot. |
| SearchPath.TokenEnd | vld.cpp:322-339 | The executable's token ends at the first space outside quotes, or at the end of the command line. |
| SearchPath.ScanToken | vld.cpp:322-339 | The scan loop stops exactly at the token's end. |
| SearchPath.DirectoryIsPrefix | vld.cpp:342-352 | The directory is the token up to and including its last backslash. It is "\" when the token has none. |
| SearchPath.CutAtLastBackslash | vld.cpp:341-355 | The cut leaves exactly the directory of the token, and handles the empty token without underflowing. |
| SearchPath.SymbolSearchPathShape | vld.cpp:357-394 | Corrected quote deletion: the finished path holds no quote. It starts with the executable's directory followed by the working directory ";.\". |
| SearchPath.BuildSymbolSearchPath | vld.cpp:300-397 | The path built is the directory, then ";.\", %SYSTEMROOT%, %SYSTEMROOT%\system32, %_NT_SYMBOL_PATH% and %_NT_ALT_SYMBOL_PATH% for the variables that are set, with every quote deleted. |
| SearchPath.DeleteQuotesAsWritten | vld.cpp:385-394 | The quote loop as written leaves the text in which the character after each deleted quote is never examined. |
| SearchPath.AsWrittenDeletesAllQuotes | vld.cpp:385-394 | Without two adjacent quotes, the loop as written does delete every quote. |
| SearchPath.AdjacentQuotesSurvive | vld.cpp:385-394 | Counterexample: from two adjacent quotes, the loop as written leaves one. |
| SearchPath.DeleteQuotes | vld.cpp:385-394 | The corrected loop, which re-examines the shifted character, deletes every quote and keeps the rest in order. |
| SearchPath.EmptyTokenScanOutOfBuffer | vld.cpp:342 | With an empty token, `strlen(path) - 1` on a 32-bit size_t starts the backward scan at 0xFFFFFFFF, past the end of the buffer. |
| ImportPatching.FindDescriptor | utility.cpp:270-281 | Finds the first descriptor before the terminator whose name matches, ignoring case. None means no descriptor before the terminator matches. |
| ImportPatching.PatchImport | utility.cpp:251-305 | The thunk memory becomes `Patched`: in the IAT of the matching descriptor, the first slot holding the real import is overwritten with the replacement. A module with no import directory or no matching descriptor is unchanged. |
| ImportPatching.RestoreImport | utility.cpp:418-471 | The first slot holding the replacement gets the real import back. A module with no import directory or no matching descriptor is unchanged. |
| ImportPatching.PatchModule | utility.cpp:326-343 | Each table entry is patched once, in table order. |
| ImportPatching.RestoreModule | utility.cpp:491-508 | Each table entry is restored once, in table order. |
| ImportPatching.PatchedChangesOnlyImportSlot | utility.cpp:291-304 | Patching changes only the slot found, which then holds the replacement. Every IAT stays terminated. |
| ImportPatching.RestoredChangesOnlyReplacementSlot | utility.cpp:458-470 | Restoring changes only the slot holding the replacement, which then holds the real import. |
| ImportPatching.NoDescriptorNoChange | utility.cpp:277-281 | A module that imports nothing from the exporting module is left alone by both operations. |
| ImportPatching.PatchThenRestore | utility.cpp:251-471 | Restoring after patching gives back the original thunks, provided the replacement is non-zero and was not already in that IAT. |
| ImportPatching.PatchedAllNoImports | utility.cpp:307-343 | patchmodule on a module that imports none of the table's functions changes nothing. |
| ImportPatching.RestoredAllNoReplacements | utility.cpp:473-508 | restoremodule on a module that holds none of the replacements changes nothing. |
| Strings.StrAppAsWritten | utility.cpp:567-578 | As written, with a non-empty source the new buffer holds the old destination followed by the source. With an empty source, `wcsncpy` writes no terminator: the buffer holds one only if its uninitialised last slot happens to be zero. Otherwise `wcsncat` reads past the buffer's end. |
| Strings.StrApp | utility.cpp:567-578 | Corrected (the last slot zeroed): the destination becomes the old destination followed by the source for every source, the empty one included, and holds no terminator. |
| Strings.WcsTolIsOne | utility.cpp:595 | `wcstol(s, &end, 10) == 1` holds exactly when s is optional white space, an optional '+', zeros, a '1', then no further digit. |
| Strings.StrToBool | utility.cpp:590-602 | True exactly for "true", "yes" or "on" in any letter case, or a string whose leading integer is 1. |
| Reporting.Truncated | utility.cpp:362-368 | The emitted message has at most max characters and no terminator. It is a prefix of the formatted text; the whole text when it fits, exactly max characters otherwise. |
| Reporting.FormatInto | utility.cpp:366 | The buffer holds the text cut at the count, with a terminator only when the text is shorter. The rest of the buffer is untouched. |
| Reporting.CappedMessage | utility.cpp:362-368 | Formatting with room for max characters and then terminating at max yields the truncated message. |
| Reporting.EmittedIsCapped | utility.cpp:370-390 | What is emitted is capped and has no terminator. In Unicode mode something is always emitted. In ASCII mode nothing is emitted exactly when the conversion fails. |
| Reporting.Reporter.constructor | utility.cpp:36-38 | Reports start out going only to the debugger, in ASCII. |
| Reporting.Reporter.Report | utility.cpp:359-397 | The emitted message is appended to the report file's writes when a file is set, and to the debugger's when that is enabled. The settings are unchanged. |
| Reporting.Reporter.SetReportEncoding | utility.cpp:519-530 | The encoding becomes the argument, and nothing else changes. |
| Reporting.Reporter.SetReportFile | utility.cpp:547-551 | The report file and the debugger copy become the arguments, and nothing else changes. |
| Reporting.AsWrittenMessageUnterminated | vld.cpp:723-734 | A message of 513 characters or more fills vld.cpp's 513-character buffer with no terminator in it. |
| Reporting.AsWrittenLongMessage | vld.cpp:726-730 | Counterexample: 513 'x' characters leave the buffer unterminated. |
| Reporting.DebugMessage | vld.cpp:723-734 | The corrected report: what reaches the debugger is the message cut at 512 characters, terminated. |

## Left out

- The debug help library is not modelled as a library. The symbol handler is
  two lookup tables: source lines and function names by program counter.
  SymInitialize and SymCleanup are represented only by their error codes.
  `linkdebughelplibrary` is represented only by its outcome (`linked`).
- The stack walker (`StackWalk64`), the inline-assembly program counter and
  frame pointer, and `GetCurrentProcess`/`GetCurrentThread` are replaced by a
  sequence of walk steps.
- `GetModuleHandleA`/`GetProcAddress` are replaced by the `Exports` function.
  `VirtualProtect` is left out: page protection does not change what the IAT
  holds. `ImageDirectoryEntryToDataEx` is replaced by an optional descriptor
  table.
- printf-style formatting (`_vsnprintf`, `_vsnwprintf`, `sprintf`) is not
  modelled. The report sink takes the formatted text, and the leak report is
  a sequence of `Message` values rather than formatted strings.
  `wcstombs` is the `narrow` parameter.
- `Sleep(10)` after a debugger report is left out. It has no observable
  effect on the output.
- Concurrency is left out. The debug heap serialises calls to the hook, so
  the model is sequential.
- The CRT's internals are left out: block headers, `_CrtSetAllocHook`, and
  the allocated list reached through a fresh block. The list is an input
  sequence, and the hook registration is represented by the old-hook field
  and the `stillHooked` argument.
- `BlockMap` (the ledger type) is not part of this model. Its insert is
  taken to replace an existing entry for the same request number. Freeing a
  missing key is a no-op.
- The `assert(FALSE)` in `setreportencoding` for an encoding outside the
  enumeration is left out: the `Encoding` type has only the two values.
- The `assert`s on `GetModuleHandleA` and `GetProcAddress` are left out: a
  missing export is the address 0, which no IAT slot before the terminator
  holds.
- `MAXREPORTLENGTH` and `_VLD_maxtraceframes` are parameters, since the
  header that defines them is not part of this model. `_VLD_maxdatadump`
  and `_VLD_showuselessframes` are inputs.
- Detector.VisualLeakDetector.Destructor: `delete m_mallocmap` is modelled as
  emptying the ledger. `delete [] m_symbolpath` is not modelled.
- Leaks.ReportLeaks: the report follows the corrected call stack section
  (`CallStackLines`). The stale-line behaviour as written is kept separately
  as `StackLinesAsWritten`.
- SearchPath.BuildSymbolSearchPath: it follows the corrected quote deletion
  and the corrected handling of an empty token. The loops as written are
  `DeleteQuotesAsWritten` and `DirectoryScanStartAsWritten`.
- Dump.DumpMemoryW: it uses the corrected word guard. With the guard as
  written, one byte is read past the region. `GuardsDifferOnlyAtLastOddByte`
  gives only the index facts: the next iteration is padding in the same line
  and writes the same text slot. That this padding write restores '.' before
  the line is reported is not proved; no as-written loop is modelled.
- Leaks.UnresolvedFrameShown: "shown by address" holds for the corrected call stack section only. As written, an unresolved frame after a resolved one is printed with the stale file and line (`StaleSourceLine`).
- SearchPath.SymbolSearchPathShape: "holds no quote" holds for the corrected quote deletion only. As written, two adjacent quotes leave one (`AdjacentQuotesSurvive`).
- Strings.StrAppAsWritten: the uninitialised memory of the new buffer is represented only by its last slot (`junk`). `wcsncpy` writes every other slot. Reading past the buffer is the `None` result, not modelled further.
- Strings.StrApp: the rest of the model uses the corrected strapp. `buildsymbolsearchpath` calls a narrow `strapp` that is not part of this model; it would reach the as-written case for an environment variable set to the empty string if it is written like the wide one.
- Reporting.DebugMessage: it models the corrected buffer handling. The
  unterminated buffer as written is `AsWrittenMessageUnterminated`.
- Text widths of the C runtime are not modelled: strings are sequences of
  characters, and `ToLower` and `isgraph` follow the "C" locale.

## Findings

| source | as written | input that shows it | evidently intended | confidence | as-written member | corrected member |
|---|---|---|---|---|---|---|
| vld.cpp:780-855 | One `IMAGEHLP_LINE64` is cleared once and reused for every frame. A failed `SymGetLineFromAddr64` leaves the previous frame's file and line in it, and the frame is printed with them. | A stack [1, 2] where only frame 1 resolves (to main.cpp line 10): both frames print as main.cpp (10). | A frame whose line lookup fails is printed by its address. | not executed | Leaks.StaleSourceLine | Leaks.ReportCallStack |
| vld.cpp:342 | `pos = strlen(path) - 1` underflows when the executable's token is empty, and on a 32-bit x86 build `path + 0xFFFFFFFF` wraps to `path - 1`: the scan reads backwards from the byte just before the buffer, and a backslash found there makes `path[pos + 1] = '\0'` write outside the buffer. | The empty command line, or one that starts with a space. | An empty token gives the directory "\". | not executed | SearchPath.EmptyTokenScanOutOfBuffer | SearchPath.CutAtLastBackslash |
| vld.cpp:385-394 | After deleting a quote, the scan moves on past the character that slid into its place. | A path containing `""` keeps one quote. | Every quote is removed. | not executed | SearchPath.AdjacentQuotesSurvive | SearchPath.DeleteQuotes |
| utility.cpp:162 | The word read is guarded by `byteindex + 1 < dumplen`, which always holds for an even index. | A 3-byte region: the word at offset 2 reads offset 3, outside the region. | Read the word only when `byteindex + 1 < size`. | not executed | Dump.AsWrittenReadsPastRegion | Dump.DumpMemoryW |
| utility.cpp:573-576 | The new buffer is not initialised, and `wcsncpy` copies exactly `length` characters, the sum of both lengths. With an empty source, no terminator is written, so `wcsncat` searches uninitialised memory for one. | `strapp(&path, "")` where the buffer's last slot is not zero: no terminator in the buffer. It would happen in buildsymbolsearchpath, for an environment variable set to the empty string, if its narrow strapp is written the same way. | An empty source leaves the destination unchanged and terminated. | not executed | Strings.StrAppAsWritten | Strings.StrApp |
| vld.cpp:726-730 | `_vsnprintf(message, 513, ...)` into a 513-character buffer writes no terminator for a message of 513 characters or more. | A message of 513 'x' characters. | Room for 512 characters plus a terminator. | not executed | Reporting.AsWrittenLongMessage | Reporting.DebugMessage |
