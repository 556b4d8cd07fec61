/**
 * The report() calls vld.cpp makes, one constructor per format string. The
 * printf-style formatting of the arguments is not modelled; Text carries the
 * format strings that take no arguments, named by Note.
 */
module Messages {
  import opened Common

  datatype Message =
    | Text(note: Note)
      // "WARNING: Visual Leak Detector: in allochook(): Unhandled allocation type (%d).\n"
    | UnhandledAllocType(hookType: int)
      // "WARNING: Visual Leak Detector: The symbol handler failed to initialize (error=%d).\n..."
    | SymInitFailed(error: int)
      // "WARNING: Visual Leak Detector: The symbol handler failed to deallocate resources (error=%d).\n"
    | SymCleanupFailed(error: int)
      // "---------- Block %d at 0x%08X: %d bytes ----------\n"
    | BlockHeader(request: int, address: nat, size: nat)
      // "---------- Block at 0x%08X: %d bytes ----------\n" (self-check)
    | InternalBlockHeader(address: nat, size: nat)
      // "%s (%d): Full call stack not available.\n" (self-check)
    | InternalBlockSource(file: string, line: nat)
      // "    %s (%d): %s\n"
    | SourceFrame(file: string, line: nat, functionName: string)
      // "    0x%08X (File and line number not available): "
    | AddressFrame(address: nat)
      // "%s\n", the function name that follows an AddressFrame
    | FunctionName(functionName: string)
      // "    %s    %s\n", one line of a data dump
    | DumpLine(hex: string, text: string)
      // L"    %s    %s\n", one line of a dump whose text column is wide characters
    | WideDumpLine(wideHex: string, wideText: seq<wchar>)
      // "Detected %d memory leak"
    | LeakTotal(count: nat)

  /** The format strings that take no arguments. */
  datatype Note =
    | Installed | NotInstalled | UnhookedPrematurely | InternalLeak | Exiting
    | Newline | DataLabel | LeaksDetected | CallStackLabel | NoLeaks
      // the ends of the leak total: "s.\n" after a count above one, ".\n" otherwise
    | LeaksPlural | LeakSingular

  /** The text of each; every one is a whole line. */
  function FormatString(n: Note): (r: string)
    ensures |r| > 0 && r[|r| - 1] == '\n'
  {
    match n
    case Installed => INSTALLED
    case NotInstalled => NOT_INSTALLED
    case UnhookedPrematurely => UNHOOKED_PREMATURELY
    case InternalLeak => INTERNAL_LEAK
    case Exiting => EXITING
    case Newline => NEWLINE
    case DataLabel => DATA_LABEL
    case LeaksDetected => LEAKS_DETECTED
    case CallStackLabel => CALL_STACK_LABEL
    case NoLeaks => NO_LEAKS
    case LeaksPlural => "s.\n"
    case LeakSingular => ".\n"
  }

  const INSTALLED := "Visual Leak Detector Version 0.9d installed.\n"
  const NOT_INSTALLED := "Visual Leak Detector IS NOT installed!\n"
  const UNHOOKED_PREMATURELY :=
    "WARNING: Visual Leak Detector: The CRT allocation hook function was unhooked prematurely!\n"
    + "    There's a good possibility that any potential leaks have gone undetected!\n"
  const INTERNAL_LEAK :=
    "ERROR: Visual Leak Detector: Detected a memory leak internal to Visual Leak Detector!!\n"
  const EXITING := "Visual Leak Detector is now exiting.\n"
  const NEWLINE := "\n"
  const DATA_LABEL := "  Data:\n"
  const LEAKS_DETECTED := "WARNING: Detected memory leaks!\n"
  const CALL_STACK_LABEL := "  Call Stack:\n"
  const NO_LEAKS := "No memory leaks detected.\n"
  const FUNCTION_NAME_UNAVAILABLE := "(Function name unavailable)"
}
