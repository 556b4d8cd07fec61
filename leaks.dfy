/**
 * The leak report (reportleaks in vld.cpp) and the destructor's self-check.
 *
 * The CRT's list of allocated blocks is a sequence from its head, the most
 * recently allocated block, to its tail. The symbol handler is two lookup
 * tables: SymGetLineFromAddr64 answers from `lines`, SymFromAddr from
 * `names`; a program counter missing from a table is a failed lookup.
 */
module Leaks {
  import opened Common
  import opened CallStacks
  import opened Messages
  import opened Strings
  import opened Dump
  import opened SearchPath

  /**
   * A block on the CRT's allocated list: its header's request number,
   * whether its block subtype marks it as allocated by the detector itself,
   * the address of its user data, the user data, and the file and line the
   * header records.
   */
  datatype Block = Block(request: int, internal: bool, address: nat, data: seq<byte>, fileName: string, line: nat)

  datatype SourceLine = SourceLine(file: string, line: nat)

  /** The symbol handler's answers for each program counter it can resolve. */
  datatype Symbols = Symbols(lines: map<nat, SourceLine>, names: map<nat, string>)

  // -----------------------------------------------------------------------
  // Frames.

  /** Source files of the heap and of the detector: frames in them are of no use in a report. */
  predicate UselessFile(file: string)
  {
    || Contains(file, "afxmem.cpp")
    || Contains(file, "dbgheap.c")
    || Contains(file, "new.cpp")
    || Contains(file, "vld.cpp")
  }

  /**
   * A frame left out of the call stack section: its source file is known,
   * useless frames are not asked for, and the file is a useless one.
   */
  predicate Suppressed(sym: Symbols, showUseless: bool, pc: nat)
  {
    pc in sym.lines && !showUseless && UselessFile(sym.lines[pc].file)
  }

  function FunctionNameAt(sym: Symbols, pc: nat): string
  {
    if pc in sym.names then sym.names[pc] else FUNCTION_NAME_UNAVAILABLE
  }

  /** The report lines of one shown frame: its source line, or its address when that is unknown. */
  function FrameLines(sym: Symbols, pc: nat): seq<Message>
  {
    if pc in sym.lines then [SourceFrame(sym.lines[pc].file, sym.lines[pc].line, FunctionNameAt(sym, pc))]
    else [AddressFrame(pc), FunctionName(FunctionNameAt(sym, pc))]
  }

  /** The frames of a stack the report shows, in stack order. */
  function ShownFrames(sym: Symbols, showUseless: bool, stack: CallStack): CallStack
  {
    if stack == [] then []
    else
      var pc := stack[|stack| - 1];
      ShownFrames(sym, showUseless, stack[..|stack| - 1]) + (if Suppressed(sym, showUseless, pc) then [] else [pc])
  }

  /** The lines of a sequence of shown frames. */
  function StackLines(sym: Symbols, frames: CallStack): seq<Message>
  {
    if frames == [] then []
    else StackLines(sym, frames[..|frames| - 1]) + FrameLines(sym, frames[|frames| - 1])
  }

  /** The call stack section of a leaked block. */
  function CallStackLines(sym: Symbols, showUseless: bool, stack: CallStack): seq<Message>
  {
    StackLines(sym, ShownFrames(sym, showUseless, stack))
  }

  /** A frame is shown exactly when it is in the stack and not suppressed. */
  lemma {:induction false} ShownFramesMembers(sym: Symbols, showUseless: bool, stack: CallStack, pc: nat)
    ensures pc in ShownFrames(sym, showUseless, stack) <==> pc in stack && !Suppressed(sym, showUseless, pc)
  {
    if stack != [] {
      var init := stack[..|stack| - 1];
      ShownFramesMembers(sym, showUseless, init, pc);
      assert stack == init + [stack[|stack| - 1]];
    }
  }

  /** With useless frames asked for, every frame is shown, in order. */
  lemma {:induction false} AllFramesShown(sym: Symbols, stack: CallStack)
    ensures ShownFrames(sym, true, stack) == stack
  {
    if stack != [] {
      AllFramesShown(sym, stack[..|stack| - 1]);
    }
  }

  /** A frame whose source line is unknown is always shown, and shown by its address. */
  lemma UnresolvedFrameShown(sym: Symbols, showUseless: bool, stack: CallStack, pc: nat)
    requires pc in stack && pc !in sym.lines
    ensures pc in ShownFrames(sym, showUseless, stack)
    ensures FrameLines(sym, pc) == [AddressFrame(pc), FunctionName(FunctionNameAt(sym, pc))]
  {
    ShownFramesMembers(sym, showUseless, stack, pc);
  }

  lemma {:induction false} ShownFramesAppend(sym: Symbols, showUseless: bool, a: CallStack, b: CallStack)
    ensures ShownFrames(sym, showUseless, a + b) == ShownFrames(sym, showUseless, a) + ShownFrames(sym, showUseless, b)
  {
    if b == [] {
      assert a + b == a;
    } else {
      var init := b[..|b| - 1];
      ShownFramesAppend(sym, showUseless, a, init);
      assert (a + b)[..|a + b| - 1] == a + init;
    }
  }

  lemma {:induction false} StackLinesAppend(sym: Symbols, a: CallStack, b: CallStack)
    ensures StackLines(sym, a + b) == StackLines(sym, a) + StackLines(sym, b)
  {
    if b == [] {
      assert a + b == a;
    } else {
      var init, last := b[..|b| - 1], b[|b| - 1];
      assert b == init + [last];
      assert a + b == (a + init) + [last];
      StackLinesAppend(sym, a, init);
      StackLinesStep(sym, a + init, last);
      StackLinesStep(sym, init, last);
      var x, y, z := StackLines(sym, a), StackLines(sym, init), FrameLines(sym, last);
      assert x + (y + z) == (x + y) + z;
    }
  }

  // -----------------------------------------------------------------------
  // Frames as written: the stale source line.

  /**
   * The call stack section as reportleaks writes it. One IMAGEHLP_LINE64
   * structure serves every lookup of the whole report; a failed
   * SymGetLineFromAddr64 leaves it as the last successful lookup set it, and
   * the frame is then printed with that earlier file and line. `last` is the
   * structure's content before the stack (None while its FileName is still
   * NULL); the second component is its content afterwards.
   */
  function StackLinesAsWritten(sym: Symbols, showUseless: bool, stack: CallStack, last: Option<SourceLine>)
    : (seq<Message>, Option<SourceLine>)
  {
    if stack == [] then ([], last)
    else
      var pc := stack[0];
      var info := if pc in sym.lines then Some(sym.lines[pc]) else last;
      var here :=
        if Suppressed(sym, showUseless, pc) then []
        else if info.Some? then [SourceFrame(info.value.file, info.value.line, FunctionNameAt(sym, pc))]
        else [AddressFrame(pc), FunctionName(FunctionNameAt(sym, pc))];
      var rest := StackLinesAsWritten(sym, showUseless, stack[1..], info);
      (here + rest.0, rest.1)
  }

  /**
   * A resolved frame followed by an unresolved one: as written, the second
   * frame is reported at the first frame's file and line; the corrected
   * section reports it by address.
   */
  lemma StaleSourceLine()
    ensures var sym := Symbols(map[1 := SourceLine("main.cpp", 10)], map[]);
            && StackLinesAsWritten(sym, false, [1, 2], None).0
               == [SourceFrame("main.cpp", 10, FUNCTION_NAME_UNAVAILABLE),
                   SourceFrame("main.cpp", 10, FUNCTION_NAME_UNAVAILABLE)]
            && CallStackLines(sym, false, [1, 2])
               == [SourceFrame("main.cpp", 10, FUNCTION_NAME_UNAVAILABLE),
                   AddressFrame(2), FunctionName(FUNCTION_NAME_UNAVAILABLE)]
  {
    var sym := Symbols(map[1 := SourceLine("main.cpp", 10)], map[]);
    MainIsNotUseless();
    assert !Suppressed(sym, false, 1);
    assert [1, 2][1..] == [2];
    assert [1, 2][..1] == [1];
    assert ShownFrames(sym, false, [1]) == [1];
    assert ShownFrames(sym, false, [1, 2]) == [1, 2];
    assert StackLines(sym, [1]) == FrameLines(sym, 1);
  }

  /** "main.cpp" names none of the heap's or the detector's source files. */
  lemma MainIsNotUseless()
    ensures !UselessFile("main.cpp")
  {
    NotContainedShorter("main.cpp", "afxmem.cpp");
    NotContainedShorter("main.cpp", "dbgheap.c");
    var main := "main.cpp";
    assert main[0] == 'm' && main[1] == 'a';
    NotContainedByFirst(main, "new.cpp");
    NotContainedByFirst(main, "vld.cpp");
  }

  lemma NotContainedShorter(s: string, sub: string)
    requires |s| < |sub|
    ensures !Contains(s, sub)
  {
  }

  /** sub cannot start at any position of s where its first character is missing. */
  lemma NotContainedByFirst(s: string, sub: string)
    requires 0 < |sub| <= |s|
    requires forall i :: 0 <= i <= |s| - |sub| ==> s[i] != sub[0]
    ensures !Contains(s, sub)
  {
    forall i | 0 <= i <= |s|
      ensures !StartsWith(s[i..], sub)
    {
      if i <= |s| - |sub| {
        assert s[i..][0] == s[i];
      }
    }
  }

  /** While every frame resolves, the stale structure is never read: as written agrees with the corrected section. */
  lemma {:induction false} AsWrittenAgreesWhenResolved(sym: Symbols, showUseless: bool, stack: CallStack,
                                                       last: Option<SourceLine>)
    requires forall i :: 0 <= i < |stack| ==> stack[i] in sym.lines
    ensures StackLinesAsWritten(sym, showUseless, stack, last).0 == CallStackLines(sym, showUseless, stack)
  {
    if stack != [] {
      var pc := stack[0];
      var rest := stack[1..];
      AsWrittenAgreesWhenResolved(sym, showUseless, rest, Some(sym.lines[pc]));
      assert stack == [pc] + rest;
      ShownFramesAppend(sym, showUseless, [pc], rest);
      assert [pc][..0] == [];
      var first := ShownFrames(sym, showUseless, [pc]);
      StackLinesAppend(sym, first, ShownFrames(sym, showUseless, rest));
      if !Suppressed(sym, showUseless, pc) {
        assert first == [pc];
        assert StackLines(sym, first) == FrameLines(sym, pc);
      }
    }
  }

  // -----------------------------------------------------------------------
  // Leaked blocks.

  /** A block is a leak when it is not the detector's own and the ledger still has its request. */
  predicate IsLeak(ledger: map<int, CallStack>, b: Block)
  {
    !b.internal && b.request in ledger
  }

  /** The leaked blocks, in list order. */
  function Leaked(ledger: map<int, CallStack>, blocks: seq<Block>): seq<Block>
  {
    if blocks == [] then []
    else
      var b := blocks[|blocks| - 1];
      Leaked(ledger, blocks[..|blocks| - 1]) + (if IsLeak(ledger, b) then [b] else [])
  }

  /** Leaked keeps exactly the leaking blocks. */
  lemma {:induction false} LeakedMembers(ledger: map<int, CallStack>, blocks: seq<Block>, b: Block)
    ensures b in Leaked(ledger, blocks) <==> b in blocks && IsLeak(ledger, b)
  {
    if blocks != [] {
      var init := blocks[..|blocks| - 1];
      LeakedMembers(ledger, init, b);
      assert blocks == init + [blocks[|blocks| - 1]];
    }
  }

  /** The request numbers of a sequence of blocks. */
  function Requests(blocks: seq<Block>): set<int>
  {
    if blocks == [] then {} else Requests(blocks[..|blocks| - 1]) + {blocks[|blocks| - 1].request}
  }

  /** The detector's own blocks aside, no two blocks on the list share a request number. */
  predicate DistinctRequests(blocks: seq<Block>)
  {
    forall i, j :: 0 <= i < j < |blocks| && !blocks[i].internal && !blocks[j].internal
      ==> blocks[i].request != blocks[j].request
  }

  /** A block of the program's own with request number r is on the list. */
  predicate OnList(blocks: seq<Block>, r: int)
  {
    exists i :: 0 <= i < |blocks| && !blocks[i].internal && blocks[i].request == r
  }

  /** Every block the ledger tracks is still on the list. */
  predicate TrackedOnList(ledger: map<int, CallStack>, blocks: seq<Block>)
  {
    forall r :: r in ledger ==> OnList(blocks, r)
  }

  lemma OnListStep(blocks: seq<Block>, r: int)
    requires blocks != []
    ensures var b := blocks[|blocks| - 1];
            OnList(blocks, r) <==> OnList(blocks[..|blocks| - 1], r) || (!b.internal && b.request == r)
  {
    var init := blocks[..|blocks| - 1];
    if OnList(blocks, r) {
      var i :| 0 <= i < |blocks| && !blocks[i].internal && blocks[i].request == r;
      if i < |init| {
        assert init[i] == blocks[i];
      }
    }
    if OnList(init, r) {
      var i :| 0 <= i < |init| && !init[i].internal && init[i].request == r;
      assert blocks[i] == init[i];
    }
  }

  lemma LeakedStep(ledger: map<int, CallStack>, blocks: seq<Block>)
    requires blocks != []
    ensures var b := blocks[|blocks| - 1];
            var l := Leaked(ledger, blocks[..|blocks| - 1]);
            && Requests(Leaked(ledger, blocks)) == Requests(l) + (if IsLeak(ledger, b) then {b.request} else {})
            && |Leaked(ledger, blocks)| == |l| + (if IsLeak(ledger, b) then 1 else 0)
  {
    var b := blocks[|blocks| - 1];
    var l := Leaked(ledger, blocks[..|blocks| - 1]);
    if IsLeak(ledger, b) {
      assert (l + [b])[..|l + [b]| - 1] == l;
    } else {
      assert l + [] == l;
    }
  }

  lemma {:induction false} LeakedRequests(ledger: map<int, CallStack>, blocks: seq<Block>)
    requires DistinctRequests(blocks)
    ensures |Leaked(ledger, blocks)| == |Requests(Leaked(ledger, blocks))|
    ensures forall r :: r in Requests(Leaked(ledger, blocks)) <==> r in ledger && OnList(blocks, r)
  {
    if blocks != [] {
      var init := blocks[..|blocks| - 1];
      var b := blocks[|blocks| - 1];
      assert DistinctRequests(init);
      LeakedRequests(ledger, init);
      LeakedStep(ledger, blocks);
      var l := Leaked(ledger, init);
      if IsLeak(ledger, b) {
        assert b.request !in Requests(l);
      }
      forall r
        ensures r in Requests(Leaked(ledger, blocks)) <==> r in ledger && OnList(blocks, r)
      {
        OnListStep(blocks, r);
      }
    }
  }

  /**
   * When every tracked block is still on the list and request numbers are
   * unique, the report counts exactly the ledger's entries.
   */
  lemma LeakCountIsLedgerSize(ledger: map<int, CallStack>, blocks: seq<Block>)
    requires DistinctRequests(blocks) && TrackedOnList(ledger, blocks)
    ensures |Leaked(ledger, blocks)| == |ledger|
  {
    LeakedRequests(ledger, blocks);
    forall r
      ensures r in Requests(Leaked(ledger, blocks)) <==> r in ledger.Keys
    {
    }
    assert Requests(Leaked(ledger, blocks)) == ledger.Keys;
  }

  // -----------------------------------------------------------------------
  // The report.

  /** The lines reported for one leaked block. */
  function BlockLines(sym: Symbols, showUseless: bool, maxDataDump: nat, b: Block, stack: CallStack): seq<Message>
  {
    [BlockHeader(b.request, b.address, |b.data|), Text(CallStackLabel)]
    + CallStackLines(sym, showUseless, stack)
    + (if maxDataDump == 0 then [] else UserDataLines(b.data, maxDataDump) + [Text(Newline)])
  }

  /** The lines the walk of the allocated list reports, the warning before the first leak. */
  function BlocksReport(sym: Symbols, showUseless: bool, maxDataDump: nat, ledger: map<int, CallStack>,
                        blocks: seq<Block>): seq<Message>
  {
    if blocks == [] then []
    else
      var init := blocks[..|blocks| - 1];
      var b := blocks[|blocks| - 1];
      BlocksReport(sym, showUseless, maxDataDump, ledger, init)
      + (if IsLeak(ledger, b) then
           (if Leaked(ledger, init) == [] then [Text(LeaksDetected)] else [])
           + BlockLines(sym, showUseless, maxDataDump, b, ledger[b.request])
         else [])
  }

  /** The summary line: none found, or the number found with its plural. */
  function Summary(count: nat): seq<Message>
  {
    if count == 0 then [Text(NoLeaks)]
    else [LeakTotal(count), Text(if count > 1 then LeaksPlural else LeakSingular)]
  }

  /**
   * Everything reportleaks reports. symInitError and symCleanupError are the
   * error codes of a failed SymInitialize and SymCleanup.
   */
  function LeakReport(sym: Symbols, showUseless: bool, maxDataDump: nat, ledger: map<int, CallStack>,
                      blocks: seq<Block>, symInitError: Option<int>, symCleanupError: Option<int>): seq<Message>
  {
    (if symInitError.Some? then [SymInitFailed(symInitError.value)] else [])
    + BlocksReport(sym, showUseless, maxDataDump, ledger, blocks)
    + Summary(|Leaked(ledger, blocks)|)
    + (if symCleanupError.Some? then [SymCleanupFailed(symCleanupError.value)] else [])
  }

  // -----------------------------------------------------------------------
  // What the report says.

  /** How often a line occurs. */
  function Count(lines: seq<Message>, m: Message): nat
  {
    if lines == [] then 0
    else Count(lines[..|lines| - 1], m) + (if lines[|lines| - 1] == m then 1 else 0)
  }

  /** The block header lines, in order. */
  function Headers(lines: seq<Message>): seq<Message>
  {
    if lines == [] then []
    else Headers(lines[..|lines| - 1]) + (if lines[|lines| - 1].BlockHeader? then [lines[|lines| - 1]] else [])
  }

  /** The header the report gives each leaked block, in order. */
  function HeadersOf(blocks: seq<Block>): seq<Message>
  {
    if blocks == [] then []
    else
      var b := blocks[|blocks| - 1];
      HeadersOf(blocks[..|blocks| - 1]) + [BlockHeader(b.request, b.address, |b.data|)]
  }

  lemma {:induction false} CountAppend(a: seq<Message>, b: seq<Message>, m: Message)
    ensures Count(a + b, m) == Count(a, m) + Count(b, m)
  {
    if b == [] {
      assert a + b == a;
    } else {
      CountAppend(a, b[..|b| - 1], m);
      assert (a + b)[..|a + b| - 1] == a + b[..|b| - 1];
    }
  }

  lemma {:induction false} HeadersAppend(a: seq<Message>, b: seq<Message>)
    ensures Headers(a + b) == Headers(a) + Headers(b)
  {
    if b == [] {
      assert a + b == a;
    } else {
      HeadersAppend(a, b[..|b| - 1]);
      assert (a + b)[..|a + b| - 1] == a + b[..|b| - 1];
    }
  }

  /** A line of a block's detail: a frame, a dump line, or a label. */
  predicate Detail(m: Message)
  {
    m.SourceFrame? || m.AddressFrame? || m.FunctionName? || m.DumpLine?
    || m.InternalBlockHeader? || m.InternalBlockSource?
    || m == Text(CallStackLabel) || m == Text(DataLabel) || m == Text(Newline)
  }

  predicate AllDetail(lines: seq<Message>)
  {
    forall k :: 0 <= k < |lines| ==> Detail(lines[k])
  }

  lemma {:induction false} DetailHasNoHeadline(lines: seq<Message>, m: Message)
    requires AllDetail(lines) && !Detail(m)
    ensures Count(lines, m) == 0 && Headers(lines) == []
  {
    if lines != [] {
      DetailHasNoHeadline(lines[..|lines| - 1], m);
    }
  }

  lemma {:induction false} StackLinesDetail(sym: Symbols, frames: CallStack)
    ensures AllDetail(StackLines(sym, frames))
  {
    if frames != [] {
      StackLinesDetail(sym, frames[..|frames| - 1]);
    }
  }

  lemma {:induction false} DumpRowsDetail(data: seq<byte>, rows: nat)
    ensures AllDetail(DumpRows(data, rows))
  {
    if rows > 0 {
      DumpRowsDetail(data, rows - 1);
    }
  }

  lemma UserDataDetail(data: seq<byte>, maxDataDump: nat)
    ensures AllDetail(UserDataLines(data, maxDataDump) + [Text(Newline)])
  {
    var datalen := if maxDataDump < |data| then maxDataDump else |data|;
    DumpRowsDetail(data[..datalen], PaddedLength(datalen) / 16);
  }

  /** After its header, a block's lines are all detail. */
  lemma BlockLinesShape(sym: Symbols, showUseless: bool, maxDataDump: nat, b: Block, stack: CallStack)
    ensures var lines := BlockLines(sym, showUseless, maxDataDump, b, stack);
            lines[0] == BlockHeader(b.request, b.address, |b.data|) && AllDetail(lines[1..])
  {
    var lines := BlockLines(sym, showUseless, maxDataDump, b, stack);
    var frames := CallStackLines(sym, showUseless, stack);
    var tail := if maxDataDump == 0 then [] else UserDataLines(b.data, maxDataDump) + [Text(Newline)];
    StackLinesDetail(sym, ShownFrames(sym, showUseless, stack));
    if maxDataDump != 0 {
      UserDataDetail(b.data, maxDataDump);
    }
    AllDetailAppend([Text(CallStackLabel)], frames);
    AllDetailAppend([Text(CallStackLabel)] + frames, tail);
    AfterFirst(BlockHeader(b.request, b.address, |b.data|), Text(CallStackLabel), frames, tail);
  }

  lemma AfterFirst<T>(h: T, l: T, x: seq<T>, y: seq<T>)
    ensures ([h, l] + x + y)[0] == h && ([h, l] + x + y)[1..] == [l] + x + y
  {
    assert [h, l] + x + y == [h] + ([l] + x + y);
  }

  lemma AllDetailAppend(a: seq<Message>, b: seq<Message>)
    requires AllDetail(a) && AllDetail(b)
    ensures AllDetail(a + b)
  {
    forall k | 0 <= k < |a + b|
      ensures Detail((a + b)[k])
    {
      if k < |a| {
        assert (a + b)[k] == a[k];
      } else {
        assert (a + b)[k] == b[k - |a|];
      }
    }
  }

  /** Appending a leaked block's lines, with or without the warning. */
  lemma AppendBlock(before: seq<Message>, warn: seq<Message>, block: seq<Message>)
    requires warn == [] || warn == [Text(LeaksDetected)]
    requires |block| > 0 && block[0].BlockHeader? && AllDetail(block[1..])
    ensures Headers(before + (warn + block)) == Headers(before) + [block[0]]
    ensures Count(before + (warn + block), Text(LeaksDetected)) == Count(before, Text(LeaksDetected)) + |warn|
  {
    assert block == [block[0]] + block[1..];
    WarnedBlock(warn, block[0], block[1..]);
    HeadersAppend(before, warn + block);
    CountAppend(before, warn + block, Text(LeaksDetected));
  }

  /** A leaked block's lines, after the warning if there is one: one header, and the warning counted once. */
  lemma WarnedBlock(warn: seq<Message>, header: Message, detail: seq<Message>)
    requires warn == [] || warn == [Text(LeaksDetected)]
    requires header.BlockHeader? && AllDetail(detail)
    ensures Headers(warn + ([header] + detail)) == [header]
    ensures Count(warn + ([header] + detail), Text(LeaksDetected)) == |warn|
  {
    BlockAlone(header, detail);
    OneLine(header);
    if warn != [] {
      OneLine(Text(LeaksDetected));
    }
    HeadersAppend(warn, [header] + detail);
    CountAppend(warn, [header] + detail, Text(LeaksDetected));
  }

  /** A leaked block's own lines: the header and then detail lines only. */
  lemma BlockAlone(header: Message, detail: seq<Message>)
    requires header.BlockHeader? && AllDetail(detail)
    ensures Headers([header] + detail) == [header]
    ensures Count([header] + detail, Text(LeaksDetected)) == 0
  {
    DetailHasNoHeadline(detail, Text(LeaksDetected));
    OneLine(header);
    HeadersAppend([header], detail);
    CountAppend([header], detail, Text(LeaksDetected));
  }

  /** The headers and the count of a single line. */
  lemma OneLine(m: Message)
    ensures Headers([m]) == (if m.BlockHeader? then [m] else [])
    ensures Count([m], Text(LeaksDetected)) == (if m == Text(LeaksDetected) then 1 else 0)
  {
    assert [m][..0] == [];
  }

  lemma HeadersOfStep(l: seq<Block>, b: Block)
    ensures HeadersOf(l + [b]) == HeadersOf(l) + [BlockHeader(b.request, b.address, |b.data|)]
  {
    assert (l + [b])[..|l + [b]| - 1] == l;
  }

  /**
   * The walk reports one header per leaked block, in list order, and the
   * warning exactly once when there is a leak, before everything else.
   */
  lemma {:induction false} BlocksReportShape(sym: Symbols, showUseless: bool, maxDataDump: nat,
                                             ledger: map<int, CallStack>, blocks: seq<Block>)
    ensures var lines := BlocksReport(sym, showUseless, maxDataDump, ledger, blocks);
            && Headers(lines) == HeadersOf(Leaked(ledger, blocks))
            && Count(lines, Text(LeaksDetected)) == (if Leaked(ledger, blocks) == [] then 0 else 1)
            && (Leaked(ledger, blocks) == [] <==> lines == [])
            && (Leaked(ledger, blocks) != [] ==> lines[0] == Text(LeaksDetected))
  {
    if blocks != [] {
      var init := blocks[..|blocks| - 1];
      var b := blocks[|blocks| - 1];
      BlocksReportShape(sym, showUseless, maxDataDump, ledger, init);
      var before := BlocksReport(sym, showUseless, maxDataDump, ledger, init);
      var l := Leaked(ledger, init);
      if IsLeak(ledger, b) {
        var warn: seq<Message> := if l == [] then [Text(LeaksDetected)] else [];
        var lines := BlockLines(sym, showUseless, maxDataDump, b, ledger[b.request]);
        BlockLinesShape(sym, showUseless, maxDataDump, b, ledger[b.request]);
        AppendBlock(before, warn, lines);
        HeadersOfStep(l, b);
        assert Leaked(ledger, blocks) == l + [b];
        assert BlocksReport(sym, showUseless, maxDataDump, ledger, blocks) == before + (warn + lines);
      } else {
        assert BlocksReport(sym, showUseless, maxDataDump, ledger, blocks) == before + [];
        assert before + [] == before;
        assert Leaked(ledger, blocks) == l + [];
        assert l + [] == l;
      }
    }
  }

  /**
   * Under the ledger's invariants the summary reports the ledger's size, right
   * after the walk: "No memory leaks detected." for an empty ledger; otherwise
   * the count of its entries, ended by "s." when there is more than one and by
   * "." for exactly one, and the walk starts with the warning.
   */
  lemma ReportedTotal(sym: Symbols, showUseless: bool, maxDataDump: nat, ledger: map<int, CallStack>,
                      blocks: seq<Block>, symInitError: Option<int>, symCleanupError: Option<int>)
    requires DistinctRequests(blocks) && TrackedOnList(ledger, blocks)
    ensures var report := LeakReport(sym, showUseless, maxDataDump, ledger, blocks, symInitError, symCleanupError);
            var init: seq<Message> := if symInitError.Some? then [SymInitFailed(symInitError.value)] else [];
            var walk := BlocksReport(sym, showUseless, maxDataDump, ledger, blocks);
            var cleanup: seq<Message> := if symCleanupError.Some? then [SymCleanupFailed(symCleanupError.value)] else [];
            && (|ledger| == 0 ==> report == init + walk + [Text(NoLeaks)] + cleanup)
            && (|ledger| > 0 ==>
                  && report == init + walk + [LeakTotal(|ledger|), Text(if |ledger| > 1 then LeaksPlural else LeakSingular)] + cleanup
                  && walk != [] && walk[0] == Text(LeaksDetected)
                  && report[|init| + |walk| + 1].Text?
                  && FormatString(report[|init| + |walk| + 1].note) == (if |ledger| > 1 then "s.\n" else ".\n"))
  {
    LeakCountIsLedgerSize(ledger, blocks);
    BlocksReportShape(sym, showUseless, maxDataDump, ledger, blocks);
    var init: seq<Message> := if symInitError.Some? then [SymInitFailed(symInitError.value)] else [];
    var walk := BlocksReport(sym, showUseless, maxDataDump, ledger, blocks);
    var cleanup: seq<Message> := if symCleanupError.Some? then [SymCleanupFailed(symCleanupError.value)] else [];
    if |ledger| > 0 {
      var ending := Text(if |ledger| > 1 then LeaksPlural else LeakSingular);
      var report := init + walk + [LeakTotal(|ledger|), ending] + cleanup;
      assert report[|init| + |walk| + 1] == ending;
    }
  }

  lemma {:induction false} NothingLeaked(blocks: seq<Block>)
    ensures Leaked(map[], blocks) == []
  {
    if blocks != [] {
      NothingLeaked(blocks[..|blocks| - 1]);
    }
  }

  /** With an empty ledger and a working symbol handler the report is the one line saying so. */
  lemma EmptyLedgerReportsNoLeaks(sym: Symbols, showUseless: bool, maxDataDump: nat, blocks: seq<Block>)
    ensures LeakReport(sym, showUseless, maxDataDump, map[], blocks, None, None) == [Text(NoLeaks)]
  {
    NothingLeaked(blocks);
    BlocksReportShape(sym, showUseless, maxDataDump, map[], blocks);
  }

  // -----------------------------------------------------------------------
  // The methods.

  lemma ShownFramesStep(sym: Symbols, showUseless: bool, stack: CallStack, frame: nat)
    requires frame < |stack|
    ensures ShownFrames(sym, showUseless, stack[..frame + 1])
            == ShownFrames(sym, showUseless, stack[..frame])
               + (if Suppressed(sym, showUseless, stack[frame]) then [] else [stack[frame]])
  {
    assert stack[..frame + 1][..frame] == stack[..frame];
  }

  lemma StackLinesStep(sym: Symbols, frames: CallStack, pc: nat)
    ensures StackLines(sym, frames + [pc]) == StackLines(sym, frames) + FrameLines(sym, pc)
  {
    assert (frames + [pc])[..|frames|] == frames;
  }

  /** The call stack section grows by the lines of each frame that is not suppressed. */
  lemma NextFrame(sym: Symbols, showUseless: bool, stack: CallStack, frame: nat, lines: seq<Message>,
                  useless: bool, here: seq<Message>)
    requires frame < |stack| && lines == StackLines(sym, ShownFrames(sym, showUseless, stack[..frame]))
    requires useless == Suppressed(sym, showUseless, stack[frame])
    requires !useless ==> here == FrameLines(sym, stack[frame])
    ensures useless ==> StackLines(sym, ShownFrames(sym, showUseless, stack[..frame + 1])) == lines
    ensures !useless ==> StackLines(sym, ShownFrames(sym, showUseless, stack[..frame + 1])) == lines + here
  {
    var shown := ShownFrames(sym, showUseless, stack[..frame]);
    ShownFramesStep(sym, showUseless, stack, frame);
    if useless {
      assert shown + [] == shown;
    } else {
      StackLinesStep(sym, shown, stack[frame]);
    }
  }

  /**
   * One frame of the loop: whether it is skipped, and the lines it prints
   * otherwise. This is the loop body of ReportCallStack, kept apart to keep
   * that proof small; `Suppressed` and `FrameLines` specify it.
   */
  method FrameReport(sym: Symbols, showUseless: bool, pc: nat) returns (useless: bool, here: seq<Message>)
    ensures useless == Suppressed(sym, showUseless, pc)
    ensures !useless ==> here == FrameLines(sym, pc)
  {
    // Source file known: useless frames are skipped unless asked for.
    useless := pc in sym.lines && !showUseless && UselessFile(sym.lines[pc].file);
    here := [];
    if !useless {
      var functionName := if pc in sym.names then sym.names[pc] else FUNCTION_NAME_UNAVAILABLE;
      if pc in sym.lines {
        here := [SourceFrame(sym.lines[pc].file, sym.lines[pc].line, functionName)];
      } else {
        here := [AddressFrame(pc), FunctionName(functionName)];
      }
    }
  }

  /** The frame loop of reportleaks. */
  method ReportCallStack(sym: Symbols, showUseless: bool, stack: CallStack) returns (lines: seq<Message>)
    ensures lines == CallStackLines(sym, showUseless, stack)
  {
    lines := [];
    var frame := 0;
    while frame < |stack|
      invariant frame <= |stack|
      invariant lines == StackLines(sym, ShownFrames(sym, showUseless, stack[..frame]))
    {
      var useless, here := FrameReport(sym, showUseless, stack[frame]);
      NextFrame(sym, showUseless, stack, frame, lines, useless, here);
      if !useless {
        lines := lines + here;
      }
      frame := frame + 1;
    }
    assert stack[..frame] == stack;
  }

  /** The block walk of reportleaks, with its count of leaks found. */
  method ReportBlocks(sym: Symbols, showUseless: bool, maxDataDump: nat, ledger: map<int, CallStack>,
                      blocks: seq<Block>) returns (lines: seq<Message>, leaksFound: nat)
    ensures lines == BlocksReport(sym, showUseless, maxDataDump, ledger, blocks)
    ensures leaksFound == |Leaked(ledger, blocks)|
  {
    lines := [];
    leaksFound := 0;
    var i := 0;
    while i < |blocks|
      invariant i <= |blocks|
      invariant leaksFound == |Leaked(ledger, blocks[..i])|
      invariant lines == BlocksReport(sym, showUseless, maxDataDump, ledger, blocks[..i])
    {
      var b := blocks[i];
      assert blocks[..i + 1][..i] == blocks[..i];
      assert blocks[..i + 1][i] == b;
      if !b.internal && b.request in ledger {
        ghost var before := lines;
        var warn: seq<Message> := [];
        if leaksFound == 0 {
          warn := [Text(LeaksDetected)];
        }
        leaksFound := leaksFound + 1;
        var frames := ReportCallStack(sym, showUseless, ledger[b.request]);
        var detail := [BlockHeader(b.request, b.address, |b.data|), Text(CallStackLabel)] + frames;
        if maxDataDump != 0 {
          var dump := DumpUserDataBlock(b.data, maxDataDump);
          detail := detail + (dump + [Text(Newline)]);
        } else {
          detail := detail + [];
        }
        assert detail == BlockLines(sym, showUseless, maxDataDump, b, ledger[b.request]);
        lines := lines + (warn + detail);
      }
      i := i + 1;
    }
    assert blocks[..i] == blocks;
  }

  /**
   * reportleaks. The symbol search path is built for the symbol handler and
   * returned; the handler's outcome is given by symInitError and
   * symCleanupError.
   */
  method ReportLeaks(command: string, env: Environment, sym: Symbols, showUseless: bool, maxDataDump: nat,
                     ledger: map<int, CallStack>, blocks: seq<Block>,
                     symInitError: Option<int>, symCleanupError: Option<int>)
    returns (symbolPath: string, lines: seq<Message>)
    requires NoNul(command) && EnvironmentNoNul(env)
    ensures symbolPath == SymbolSearchPath(command, env)
    ensures lines == LeakReport(sym, showUseless, maxDataDump, ledger, blocks, symInitError, symCleanupError)
  {
    symbolPath := BuildSymbolSearchPath(command, env);
    lines := [];
    if symInitError.Some? {
      lines := [SymInitFailed(symInitError.value)];
    }
    var walk, leaksFound := ReportBlocks(sym, showUseless, maxDataDump, ledger, blocks);
    lines := lines + walk;
    // Show a summary.
    if leaksFound == 0 {
      lines := lines + [Text(NoLeaks)];
    } else {
      lines := lines + [LeakTotal(leaksFound), Text(if leaksFound > 1 then LeaksPlural else LeakSingular)];
    }
    if symCleanupError.Some? {
      lines := lines + [SymCleanupFailed(symCleanupError.value)];
    }
  }

  // -----------------------------------------------------------------------
  // The self-check.

  /** The lines the self-check reports for one of the detector's own blocks. */
  function InternalBlockLines(maxDataDump: nat, b: Block): seq<Message>
  {
    [Text(InternalLeak), InternalBlockHeader(b.address, |b.data|), InternalBlockSource(b.fileName, b.line)]
    + UserDataLines(b.data, maxDataDump) + [Text(Newline)]
  }

  /** The self-check's lines for a list of blocks. */
  function SelfCheckReport(maxDataDump: nat, blocks: seq<Block>): seq<Message>
  {
    if blocks == [] then []
    else
      var b := blocks[|blocks| - 1];
      SelfCheckReport(maxDataDump, blocks[..|blocks| - 1]) + (if b.internal then InternalBlockLines(maxDataDump, b) else [])
  }

  /** The detector's own blocks, in list order. */
  function InternalBlocks(blocks: seq<Block>): seq<Block>
  {
    if blocks == [] then []
    else
      var b := blocks[|blocks| - 1];
      InternalBlocks(blocks[..|blocks| - 1]) + (if b.internal then [b] else [])
  }

  lemma OneInternalLeakLine(x: Message, y: Message, data: seq<Message>)
    requires x.InternalBlockHeader? && y.InternalBlockSource? && AllDetail(data)
    ensures Count([Text(InternalLeak), x, y] + data, Text(InternalLeak)) == 1
  {
    var head := [Text(InternalLeak)];
    var tail := [x, y] + data;
    assert AllDetail(tail) by {
      forall k | 0 <= k < |tail|
        ensures Detail(tail[k])
      {
        if k >= 2 {
          assert tail[k] == data[k - 2];
        }
      }
    }
    DetailHasNoHeadline(tail, Text(InternalLeak));
    assert head[..0] == [];
    assert [Text(InternalLeak), x, y] + data == head + tail;
    CountAppend(head, tail, Text(InternalLeak));
  }

  lemma InternalBlockLinesCount(maxDataDump: nat, b: Block)
    ensures Count(InternalBlockLines(maxDataDump, b), Text(InternalLeak)) == 1
  {
    var data := UserDataLines(b.data, maxDataDump) + [Text(Newline)];
    UserDataDetail(b.data, maxDataDump);
    var head := [Text(InternalLeak), InternalBlockHeader(b.address, |b.data|), InternalBlockSource(b.fileName, b.line)];
    OneInternalLeakLine(head[1], head[2], data);
    assert InternalBlockLines(maxDataDump, b) == head + data;
  }

  /** The self-check raises one error per block of the detector's own, and says nothing when there are none. */
  lemma {:induction false} SelfCheckCounts(maxDataDump: nat, blocks: seq<Block>)
    ensures var lines := SelfCheckReport(maxDataDump, blocks);
            && Count(lines, Text(InternalLeak)) == |InternalBlocks(blocks)|
            && (lines == [] <==> InternalBlocks(blocks) == [])
  {
    if blocks != [] {
      var init := blocks[..|blocks| - 1];
      var b := blocks[|blocks| - 1];
      SelfCheckCounts(maxDataDump, init);
      var before := SelfCheckReport(maxDataDump, init);
      if b.internal {
        InternalBlockLinesCount(maxDataDump, b);
        CountAppend(before, InternalBlockLines(maxDataDump, b), Text(InternalLeak));
      } else {
        assert SelfCheckReport(maxDataDump, blocks) == before + [];
        assert before + [] == before;
        assert InternalBlocks(blocks) == InternalBlocks(init) + [];
        assert InternalBlocks(init) + [] == InternalBlocks(init);
      }
    }
  }

  /** The destructor's walk of the allocated list, after the ledger is gone. */
  method SelfCheck(maxDataDump: nat, blocks: seq<Block>) returns (lines: seq<Message>)
    ensures lines == SelfCheckReport(maxDataDump, blocks)
  {
    lines := [];
    var i := 0;
    while i < |blocks|
      invariant i <= |blocks|
      invariant lines == SelfCheckReport(maxDataDump, blocks[..i])
    {
      var b := blocks[i];
      assert blocks[..i + 1][..i] == blocks[..i];
      if b.internal {
        var dump := DumpUserDataBlock(b.data, maxDataDump);
        lines := lines + ([Text(InternalLeak), InternalBlockHeader(b.address, |b.data|),
                           InternalBlockSource(b.fileName, b.line)] + dump + [Text(Newline)]);
      }
      i := i + 1;
    }
    assert blocks[..i] == blocks;
  }
}
