/**
 * Report output: report, setreportencoding and setreportfile in utility.cpp,
 * and the debugger message of vld.cpp's report.
 *
 * The printf-style formatting is the C library's: the fully formatted text
 * is an input, and only what happens to it afterwards is modelled: the copy
 * into a fixed-size buffer, the cap on its length, the conversion to the
 * narrow encoding, and where the result goes.
 */
module Reporting {
  import opened Common

  // -----------------------------------------------------------------------
  // Formatting into a fixed-size buffer.

  /**
   * The buffer after _vsnprintf or _vsnwprintf with room for `count`
   * characters: the text up to its terminator, cut at `count` characters;
   * the terminator is written only when the text is shorter than that, and
   * the rest of the buffer keeps what it held before.
   */
  function FormattedBuffer<T(==)>(before: seq<T>, count: nat, text: seq<T>, nul: T): (r: seq<T>)
    requires count <= |before|
    ensures |r| == |before|
    ensures var s := CString(text, nul);
            && (forall i :: 0 <= i < count && i < |s| ==> r[i] == s[i])
            && (|s| < count ==> r[|s|] == nul)
            && (forall i :: (if |s| < count then |s| + 1 else count) <= i < |before| ==> r[i] == before[i])
  {
    var s := CString(text, nul);
    if |s| < count then s + [nul] + before[|s| + 1..]
    else s[..count] + before[count..]
  }

  /** A message as the report emits it: the text up to its terminator, at most max characters of it. */
  function Truncated<T(==)>(text: seq<T>, nul: T, max: nat): (r: seq<T>)
    ensures |r| <= max && nul !in r
    ensures r <= CString(text, nul)
    ensures |CString(text, nul)| <= max ==> r == CString(text, nul)
    ensures |CString(text, nul)| > max ==> |r| == max
  {
    var s := CString(text, nul);
    if |s| <= max then s else s[..max]
  }

  /** The formatting call: copy the text and, when it fits, its terminator. */
  method FormatInto<T(==)>(buffer: array<T>, count: nat, text: seq<T>, nul: T)
    requires count <= buffer.Length
    modifies buffer
    ensures buffer[..] == FormattedBuffer(old(buffer[..]), count, text, nul)
  {
    var s := CString(text, nul);
    var i := 0;
    while i < |s| && i < count
      invariant i <= |s| && i <= count
      invariant forall j :: 0 <= j < i ==> buffer[j] == s[j]
      invariant forall j :: i <= j < buffer.Length ==> buffer[j] == old(buffer[j])
    {
      buffer[i] := s[i];
      i := i + 1;
    }
    if i < count {
      buffer[i] := nul;
    }
    ghost var r := FormattedBuffer(old(buffer[..]), count, text, nul);
    assert forall j :: 0 <= j < buffer.Length ==> buffer[..][j] == r[j];
  }

  /**
   * Capping the buffer: a buffer of max + 1 characters, formatted with room
   * for max and then terminated at max, holds the truncated message.
   */
  method CappedMessage<T(==)>(text: seq<T>, nul: T, max: nat) returns (message: seq<T>)
    ensures message == Truncated(text, nul, max)
  {
    var buffer := new T[max + 1](_ => nul);
    FormatInto(buffer, max, text, nul);
    buffer[max] := nul;
    var s := CString(text, nul);
    var n := if |s| <= max then |s| else max;
    assert buffer[..n] == s[..n];
    assert buffer[n] == nul;
    CStringAt(buffer[..], nul, n);
    message := CString(buffer[..], nul);
    assert message == buffer[..][..n];
  }

  // -----------------------------------------------------------------------
  // utility.cpp: report and its settings.

  datatype Encoding = Ascii | Unicode

  /** What one report call writes: narrow characters, or wide ones in Unicode mode. */
  datatype Output = Narrow(bytes: seq<byte>) | Wide(chars: seq<wchar>)

  /** An open FILE the caller handed to setreportfile. */
  type FileHandle = nat

  /**
   * What report emits for a formatted message: in Unicode mode the capped
   * wide message; in ASCII mode its conversion by `narrow` (wcstombs),
   * capped again, or nothing when the conversion fails.
   */
  function Emitted(encoding: Encoding, text: seq<wchar>, max: nat,
                   narrow: seq<wchar> -> Option<seq<byte>>): Option<Output>
  {
    var message := Truncated(text, 0 as wchar, max);
    match encoding
    case Unicode => Some(Wide(message))
    case Ascii =>
      match narrow(message)
      case None => None
      case Some(bytes) => Some(Narrow(Truncated(bytes, 0 as byte, max)))
  }

  /**
   * Whatever is emitted has at most max characters and no terminator inside;
   * in Unicode mode something is always emitted, and it is the start of the
   * formatted text; a message within the cap is emitted whole.
   */
  lemma EmittedIsCapped(encoding: Encoding, text: seq<wchar>, max: nat, narrow: seq<wchar> -> Option<seq<byte>>)
    ensures var e := Emitted(encoding, text, max, narrow);
            && (e.Some? && e.value.Wide? ==> |e.value.chars| <= max && e.value.chars <= CString(text, 0))
            && (e.Some? && e.value.Narrow? ==> |e.value.bytes| <= max && 0 !in e.value.bytes)
            && (encoding == Unicode ==> e.Some? && e.value.Wide?)
            && (encoding == Unicode && |CString(text, 0)| <= max ==> e == Some(Wide(CString(text, 0))))
            && (encoding == Ascii ==> (e.None? <==> narrow(Truncated(text, 0, max)).None?))
  {
  }

  /** The report settings and the two places reports go. */
  class Reporter {
    /** reportfile: the file reports are copied to, if one was set. */
    var reportFile: Option<FileHandle>
    /** reporttodebugger */
    var toDebugger: bool
    /** reportencoding */
    var encoding: Encoding
    /** What was written to files, in order, with the file each write went to. */
    var fileWrites: seq<(FileHandle, Output)>
    /** What was sent to the debugger, in order. */
    var debugger: seq<Output>
    /** MAXREPORTLENGTH */
    const maxReportLength: nat

    /** The settings' initial values: no file, to the debugger, ASCII. */
    constructor (maxLength: nat)
      ensures reportFile == None && toDebugger && encoding == Ascii
      ensures fileWrites == [] && debugger == [] && maxReportLength == maxLength
    {
      reportFile := None;
      toDebugger := true;
      encoding := Ascii;
      fileWrites := [];
      debugger := [];
      maxReportLength := maxLength;
    }

    /** setreportencoding: both encodings are accepted, so the setting is the argument. */
    method SetReportEncoding(e: Encoding)
      modifies this
      ensures encoding == e
      ensures reportFile == old(reportFile) && toDebugger == old(toDebugger)
      ensures fileWrites == old(fileWrites) && debugger == old(debugger)
    {
      match e
      case Ascii => encoding := e;
      case Unicode => encoding := e;
    }

    /** setreportfile: reports go to this file from now on, and to the debugger only if asked. */
    method SetReportFile(file: Option<FileHandle>, copyDebugger: bool)
      modifies this
      ensures reportFile == file && toDebugger == copyDebugger
      ensures encoding == old(encoding)
      ensures fileWrites == old(fileWrites) && debugger == old(debugger)
    {
      reportFile := file;
      toDebugger := copyDebugger;
    }

    /**
     * report: the formatted message `text` is capped at maxReportLength
     * characters and sent to the report file, if any, and to the debugger,
     * if enabled; in ASCII mode it is converted by `narrow` first, and a
     * message that does not convert is dropped.
     */
    method Report(text: seq<wchar>, narrow: seq<wchar> -> Option<seq<byte>>)
      modifies this
      ensures var e := Emitted(old(encoding), text, maxReportLength, narrow);
              && fileWrites == old(fileWrites)
                               + (if reportFile.Some? && e.Some? then [(reportFile.value, e.value)] else [])
              && debugger == old(debugger) + (if toDebugger && e.Some? then [e.value] else [])
      ensures reportFile == old(reportFile) && toDebugger == old(toDebugger) && encoding == old(encoding)
    {
      var messagew := CappedMessage(text, 0 as wchar, maxReportLength);
      var out: Output;
      if encoding == Unicode {
        out := Wide(messagew);
      } else {
        var converted := narrow(messagew);
        if converted.None? {
          // Failed to convert the message to ASCII.
          return;
        }
        var messagea := CappedMessage(converted.value, 0 as byte, maxReportLength);
        out := Narrow(messagea);
      }
      if reportFile.Some? {
        fileWrites := fileWrites + [(reportFile.value, out)];
      }
      if toDebugger {
        debugger := debugger + [out];
      }
    }
  }

  // -----------------------------------------------------------------------
  // vld.cpp: report.

  /** MAXREPORTMESSAGESIZE: the size of vld.cpp's message buffer. */
  const MAX_REPORT_MESSAGE_SIZE: nat := 513

  /**
   * As written, vld.cpp formats into its 513-character buffer with room for
   * all 513 and adds no terminator. A message of 513 characters or more
   * fills the buffer with no terminator in it, whatever the buffer held
   * before, and the debugger reads on past its end.
   */
  lemma AsWrittenMessageUnterminated(before: string, text: string)
    requires |before| == MAX_REPORT_MESSAGE_SIZE && |CString(text, '\0')| >= MAX_REPORT_MESSAGE_SIZE
    ensures '\0' !in FormattedBuffer(before, MAX_REPORT_MESSAGE_SIZE, text, '\0')
  {
    var r := FormattedBuffer(before, MAX_REPORT_MESSAGE_SIZE, text, '\0');
    var s := CString(text, '\0');
    forall i | 0 <= i < |r|
      ensures r[i] != '\0'
    {
      assert r[i] == s[i];
    }
  }

  /** A concrete message that shows it: 513 'x' characters. */
  lemma AsWrittenLongMessage()
    ensures var text := seq(MAX_REPORT_MESSAGE_SIZE, _ => 'x');
            '\0' !in FormattedBuffer(seq(MAX_REPORT_MESSAGE_SIZE, _ => ' '), MAX_REPORT_MESSAGE_SIZE, text, '\0')
  {
    var text := seq(MAX_REPORT_MESSAGE_SIZE, _ => 'x');
    assert '\0' !in text;
    assert CString(text, '\0') == text;
    AsWrittenMessageUnterminated(seq(MAX_REPORT_MESSAGE_SIZE, _ => ' '), text);
  }

  /**
   * vld.cpp's report, with the buffer capped as utility.cpp's report caps
   * its own: room for 512 characters and a terminator at the end. What
   * reaches the debugger is the message, cut at 512 characters.
   */
  method DebugMessage(text: string) returns (message: string)
    ensures message == Truncated(text, '\0', MAX_REPORT_MESSAGE_SIZE - 1)
  {
    message := CappedMessage(text, '\0', MAX_REPORT_MESSAGE_SIZE - 1);
  }
}
