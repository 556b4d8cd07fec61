/**
 * Hex dumps of a memory region: dumpuserdatablock (vld.cpp), dumpmemorya
 * and dumpmemoryw (utility.cpp). Each output line covers 16 bytes; the last
 * line is padded out to 16. The hex column shows "XX " per byte with an
 * extra three spaces after every fourth byte; the text column shows one
 * character per byte with a space after the eighth (or, for dumpmemoryw,
 * one 16-bit character per two bytes).
 *
 * Each routine returns the report() calls it makes, in order.
 */
module Dump {
  import opened Common
  import opened Messages

  // -----------------------------------------------------------------------
  // Layout.

  /** The dump length: the region padded out to whole 16-byte lines. */
  function PaddedLength(size: nat): (n: nat)
    ensures n % 16 == 0 && size <= n < size + 16
  {
    if size % 16 == 0 then size else size + (16 - size % 16)
  }

  /** A count of whole lines and a part-line that adds up to the padded length has no part-line. */
  lemma WholeLines(size: nat, row: nat, k: nat)
    requires 16 * row + k == PaddedLength(size) && k < 16
    ensures k == 0 && PaddedLength(size) / 16 == row
  {
    LineOffset(row, k);
  }

  /** The padded length is the least multiple of 16 that holds the region. */
  lemma PaddedLengthIsLeast(size: nat, m: nat)
    requires m % 16 == 0 && size <= m
    ensures PaddedLength(size) <= m
  {
  }

  /** hexindex: where byte k of a line starts in the hex column (3 characters a byte, 3 more after every 4). */
  function HexIndex(k: nat): (i: nat)
    requires k < 16
    ensures i + 3 < 58
  {
    3 * k + (if k < 4 then 0 else if k < 8 then 3 else if k < 12 then 6 else 9)
  }

  /** ascindex: where byte k of a line goes in the text column (a space after the eighth). */
  function AscIndex(k: nat): (i: nat)
    requires k < 16
    ensures i + 1 < 18
  {
    if k < 8 then k else k + 1
  }



  /** Width of the hex column after k bytes of a line. */
  function HexLen(k: nat): nat
    requires k <= 16
  {
    if k == 16 then 57 else HexIndex(k)
  }

  /** Width of the text column after k bytes of a line. */
  function AscLen(k: nat): nat
    requires k <= 16
  {
    if k == 16 then 17 else AscIndex(k)
  }

  // -----------------------------------------------------------------------
  // Cells.

  const HEX_DIGITS: string := "0123456789ABCDEF"

  /** "%.2X": two upper-case hex digits. */
  function Hex2(x: byte): (r: string)
    ensures |r| == 2 && '\0' !in r
  {
    [HEX_DIGITS[x / 16], HEX_DIGITS[x % 16]]
  }

  function HexDigitValue(c: char): nat
  {
    if '0' <= c <= '9' then c as int - '0' as int
    else if 'A' <= c <= 'F' then c as int - 'A' as int + 10
    else 0
  }

  /** "%.2X" can be read back: the two digits give the byte. */
  lemma Hex2Decodes(x: byte)
    ensures 16 * HexDigitValue(Hex2(x)[0]) + HexDigitValue(Hex2(x)[1]) == x as int
  {
    forall d: nat | d < 16
      ensures HexDigitValue(HEX_DIGITS[d]) == d
    {
    }
  }

  /** isgraph in the "C" locale: printable and not a space. */
  predicate IsGraph(x: byte)
  {
    0x21 <= x <= 0x7E
  }

  /** The hex cell of byte b of the region, or padding past its end. */
  function HexCell(data: seq<byte>, b: nat): (r: string)
    ensures |r| == 3 && '\0' !in r
  {
    if b < |data| then Hex2(data[b]) + " " else "   "
  }

  /** The text cell of byte b: itself when isgraph holds, '.' otherwise and for padding. */
  function AscCell(data: seq<byte>, b: nat): (c: char)
    ensures c != '\0'
    ensures b < |data| && IsGraph(data[b]) ==> c as int == data[b] as int
    ensures !(b < |data| && IsGraph(data[b])) ==> c == '.'
  {
    if b < |data| && IsGraph(data[b]) then data[b] as int as char else '.'
  }

  /** The 16-bit word at byte offset b, little-endian (a `WORD` read). */
  function WordAt(data: seq<byte>, b: nat): wchar
    requires b + 1 < |data|
  {
    (data[b] as int + 0x100 * data[b + 1] as int) as wchar
  }

  /** What dumpmemoryw shows for a word: '.' for 0x0000 and 0x0020, the word itself otherwise. */
  function WordChar(w: wchar): (c: wchar)
    ensures c != 0
    ensures w == 0 || w == 0x20 ==> c == '.' as int as wchar
    ensures w != 0 && w != 0x20 ==> c == w
  {
    if w == 0 || w == 0x20 then '.' as int as wchar else w
  }

  /** The wide text cell for the byte pair at even offset b: padding and a lone last byte show '.'. */
  function WideCell(data: seq<byte>, b: nat): (c: wchar)
    ensures c != 0
  {
    if b + 1 < |data| then WordChar(WordAt(data, b)) else '.' as int as wchar
  }

  // -----------------------------------------------------------------------
  // Lines.

  /** The sixteen hex cells of the line at offset base. */
  function HexCells(data: seq<byte>, base: nat): (cells: seq<string>)
    ensures |cells| == 16
    ensures forall i :: 0 <= i < 16 ==> cells[i] == HexCell(data, base + i)
  {
    seq(16, i requires 0 <= i < 16 => HexCell(data, base + i))
  }

  predicate CellsOfThree(cells: seq<string>)
  {
    |cells| == 16 && forall i :: 0 <= i < 16 ==> |cells[i]| == 3
  }

  /** The hex column after the first k cells of a line: a three-space gap follows cells 4, 8 and 12. */
  function Layout(cells: seq<string>, k: nat): (r: string)
    requires CellsOfThree(cells) && k <= 16
    ensures |r| == HexLen(k)
  {
    if k == 0 then []
    else Layout(cells, k - 1) + cells[k - 1] + (if k == 4 || k == 8 || k == 12 then "   " else "")
  }

  lemma {:induction false} LayoutNoNul(cells: seq<string>, k: nat)
    requires CellsOfThree(cells) && k <= 16
    requires forall i :: 0 <= i < 16 ==> '\0' !in cells[i]
    ensures '\0' !in Layout(cells, k)
  {
    if k > 0 {
      LayoutNoNul(cells, k - 1);
    }
  }

  /** The hex column after the first k bytes of the line at offset base. */
  function HexPrefix(data: seq<byte>, base: nat, k: nat): (r: string)
    requires k <= 16
  {
    Layout(HexCells(data, base), k)
  }

  /** The text column after the first k bytes of the line at offset base. */
  function AscPrefix(data: seq<byte>, base: nat, k: nat): (r: string)
    requires k <= 16
    ensures |r| == AscLen(k) && '\0' !in r
  {
    if k == 0 then []
    else AscPrefix(data, base, k - 1) + [AscCell(data, base + k - 1)] + (if k == 8 then " " else "")
  }

  function HexRow(data: seq<byte>, base: nat): string
  {
    HexPrefix(data, base, 16)
  }

  function AscRow(data: seq<byte>, base: nat): string
  {
    AscPrefix(data, base, 16)
  }

  /** The eight wide characters of the line at offset base. */
  function WideRow(data: seq<byte>, base: nat): seq<wchar>
  {
    seq(8, j requires 0 <= j < 8 => WideCell(data, base + 2 * j))
  }

  /** The first `rows` lines of a hex and text dump of data. */
  function DumpRows(data: seq<byte>, rows: nat): (lines: seq<Message>)
    ensures |lines| == rows
  {
    if rows == 0 then []
    else DumpRows(data, rows - 1) + [DumpLine(HexRow(data, 16 * (rows - 1)), AscRow(data, 16 * (rows - 1)))]
  }

  /** The first `rows` lines of a hex and wide-character dump of data. */
  function WideDumpRows(data: seq<byte>, rows: nat): (lines: seq<Message>)
    ensures |lines| == rows
  {
    if rows == 0 then []
    else WideDumpRows(data, rows - 1) + [WideDumpLine(HexRow(data, 16 * (rows - 1)), WideRow(data, 16 * (rows - 1)))]
  }

  /** The lines dumpuserdatablock reports: at most maxDataDump bytes, padded to whole lines. */
  function UserDataLines(data: seq<byte>, maxDataDump: nat): seq<Message>
  {
    var datalen := if maxDataDump < |data| then maxDataDump else |data|;
    [Text(DataLabel)] + DumpRows(data[..datalen], PaddedLength(datalen) / 16)
  }

  // -----------------------------------------------------------------------
  // What the lines say.

  /** Line r of a dump shows bytes 16r to 16r+15. */
  lemma DumpRowsLine(data: seq<byte>, rows: nat, r: nat)
    requires r < rows
    ensures |DumpRows(data, rows)| == rows && |WideDumpRows(data, rows)| == rows
    ensures DumpRows(data, rows)[r] == DumpLine(HexRow(data, 16 * r), AscRow(data, 16 * r))
    ensures WideDumpRows(data, rows)[r] == WideDumpLine(HexRow(data, 16 * r), WideRow(data, 16 * r))
  {
    NarrowRowAt(data, rows, r);
    WideRowAt(data, rows, r);
  }

  lemma {:induction false} NarrowRowAt(data: seq<byte>, rows: nat, r: nat)
    requires r < rows
    ensures DumpRows(data, rows)[r] == DumpLine(HexRow(data, 16 * r), AscRow(data, 16 * r))
  {
    var last := rows - 1;
    var line := DumpLine(HexRow(data, 16 * last), AscRow(data, 16 * last));
    assert DumpRows(data, rows) == DumpRows(data, last) + [line];
    if r < last {
      NarrowRowAt(data, last, r);
      IndexOfLeft(DumpRows(data, last), line, r);
    } else {
      assert (DumpRows(data, last) + [line])[r] == line;
    }
  }

  lemma {:induction false} WideRowAt(data: seq<byte>, rows: nat, r: nat)
    requires r < rows
    ensures WideDumpRows(data, rows)[r] == WideDumpLine(HexRow(data, 16 * r), WideRow(data, 16 * r))
  {
    var last := rows - 1;
    var line := WideDumpLine(HexRow(data, 16 * last), WideRow(data, 16 * last));
    assert WideDumpRows(data, rows) == WideDumpRows(data, last) + [line];
    if r < last {
      WideRowAt(data, last, r);
      IndexOfLeft(WideDumpRows(data, last), line, r);
    } else {
      assert (WideDumpRows(data, last) + [line])[r] == line;
    }
  }

  /** Indexing inside the left part of a concatenation. */
  lemma IndexOfLeft<T>(p: seq<T>, x: T, r: nat)
    requires r < |p|
    ensures (p + [x])[r] == p[r]
  {
  }

  /** Slicing inside the left part of a concatenation. */
  lemma SliceOfLeft<T>(p: seq<T>, x: seq<T>, a: nat, b: nat)
    requires a <= b <= |p|
    ensures (p + x)[a..b] == p[a..b]
  {
  }

  lemma AppendAssoc<T>(a: seq<T>, b: seq<T>, c: seq<T>)
    ensures (a + b) + c == a + (b + c)
  {
  }

  /** Slicing the right part of a concatenation. */
  lemma SliceOfRight<T>(p: seq<T>, x: seq<T>, y: seq<T>, a: nat)
    requires a == |p|
    ensures (p + x + y)[a..a + |x|] == x
  {
  }

  /** How far the hex column grows with byte k: its cell and, after every fourth byte but the last, a gap. */
  lemma HexLenStep(k: nat)
    requires k < 16
    ensures HexLen(k) == HexIndex(k)
    ensures HexLen(k + 1) == HexIndex(k) + 3 + (if k == 3 || k == 7 || k == 11 then 3 else 0)
  {
  }

  lemma {:induction false} HexLenMonotone(a: nat, b: nat)
    requires a <= b <= 16
    ensures HexLen(a) <= HexLen(b)
  {
    if a < b {
      HexLenStep(b - 1);
      HexLenMonotone(a, b - 1);
    }
  }

  /** The hex column holds cell j at hexindex j. */
  lemma {:induction false} LayoutCell(cells: seq<string>, k: nat, j: nat)
    requires CellsOfThree(cells) && j < k <= 16
    ensures Layout(cells, k)[HexIndex(j)..HexIndex(j) + 3] == cells[j]
  {
    HexLenStep(j);
    HexLenStep(k - 1);
    if j < k - 1 {
      LayoutCell(cells, k - 1, j);
      HexLenMonotone(j + 1, k - 1);
      SliceOfLeft(Layout(cells, k - 1), cells[k - 1] + (if k == 4 || k == 8 || k == 12 then "   " else ""),
                  HexIndex(j), HexIndex(j) + 3);
    } else {
      SliceOfRight(Layout(cells, k - 1), cells[k - 1], if k == 4 || k == 8 || k == 12 then "   " else "", HexIndex(j));
    }
  }

  /** After cells 4, 8 and 12 of a line the hex column has a three-space gap. */
  lemma {:induction false} LayoutGap(cells: seq<string>, k: nat, j: nat)
    requires CellsOfThree(cells) && j < k <= 16 && (j == 3 || j == 7 || j == 11)
    ensures Layout(cells, k)[HexIndex(j) + 3..HexIndex(j) + 6] == "   "
  {
    HexLenStep(j);
    HexLenStep(k - 1);
    if j < k - 1 {
      LayoutGap(cells, k - 1, j);
      HexLenMonotone(j + 1, k - 1);
      SliceOfLeft(Layout(cells, k - 1), cells[k - 1] + (if k == 4 || k == 8 || k == 12 then "   " else ""),
                  HexIndex(j) + 3, HexIndex(j) + 6);
    } else {
      SliceOfRight(Layout(cells, k - 1) + cells[k - 1], "   ", [], HexIndex(j) + 3);
    }
  }

  /** The text column holds the character of byte k at ascindex k. */
  lemma {:induction false} AscPrefixCell(data: seq<byte>, base: nat, k: nat, j: nat)
    requires j < k <= 16
    ensures AscPrefix(data, base, k)[AscIndex(j)] == AscCell(data, base + j)
    ensures AscPrefix(data, base, k)[AscLen(0)..] == AscPrefix(data, base, k)
  {
    if j < k - 1 {
      AscPrefixCell(data, base, k - 1, j);
    }
  }

  /**
   * Reading a line back: each hex cell of a byte in the region decodes to
   * that byte, each padding cell is blank, and the text column shows the
   * byte itself exactly when isgraph holds and '.' otherwise.
   */
  lemma DumpLineShowsBytes(data: seq<byte>, base: nat, k: nat)
    requires k < 16
    ensures var cell := HexRow(data, base)[HexIndex(k)..HexIndex(k) + 3];
            && (base + k < |data| ==>
                  16 * HexDigitValue(cell[0]) + HexDigitValue(cell[1]) == data[base + k] as int && cell[2] == ' ')
            && (base + k >= |data| ==> cell == "   ")
    ensures var c := AscRow(data, base)[AscIndex(k)];
            && (base + k < |data| && IsGraph(data[base + k]) ==> c as int == data[base + k] as int)
            && (base + k >= |data| || !IsGraph(data[base + k]) ==> c == '.')
  {
    LayoutCell(HexCells(data, base), 16, k);
    AscPrefixCell(data, base, 16, k);
    if base + k < |data| {
      Hex2Decodes(data[base + k]);
    }
  }

  // -----------------------------------------------------------------------
  // The C string copies the routines use.

  /** The n characters strncpy writes: src cut at n, then NULs up to n. */
  function StrNText(src: string, n: nat): (r: string)
    ensures |r| == n
  {
    if |src| >= n then src[..n] else src + seq(n - |src|, _ => '\0')
  }

  /** A buffer after strncpy(buffer + at, src, n). */
  function WriteStr(s: seq<char>, at: nat, src: string, n: nat): (r: seq<char>)
    requires at + n <= |s|
    ensures |r| == |s|
  {
    s[..at] + StrNText(src, n) + s[at + n..]
  }

  /** strncpy / wcsncpy into dest at offset `at`; src holds no NUL. */
  method StrNCpy(dest: array<char>, at: nat, src: string, n: nat)
    requires at + n <= dest.Length && '\0' !in src
    modifies dest
    ensures dest[..] == WriteStr(old(dest[..]), at, src, n)
  {
    ghost var text := StrNText(src, n);
    var i := 0;
    while i < n
      invariant 0 <= i <= n
      invariant forall j :: 0 <= j < dest.Length ==>
                  dest[j] == (if at <= j < at + i then text[j - at] else old(dest[j]))
    {
      dest[at + i] := if i < |src| then src[i] else '\0';
      i := i + 1;
    }
    assert forall j :: 0 <= j < dest.Length ==> dest[..][j] == WriteStr(old(dest[..]), at, src, n)[j];
  }

  // -----------------------------------------------------------------------
  // One byte's writes into the hex and text buffers.

  /** Byte k of line `row` is at offset k of its line. */
  lemma LineOffset(row: nat, k: nat)
    requires k < 16
    ensures (16 * row + k) % 16 == k && (16 * row + k) / 16 == row
  {
  }
  /** The column formulas of the code are hexindex and ascindex. */
  lemma ColumnFormulas(k: nat)
    requires k < 16
    ensures 3 * (k + k / 4) == HexIndex(k) && k + k / 8 == AscIndex(k)
  {
  }
  /** uniindex of dumpmemoryw is the slot of the byte pair, and the byte is even when it starts the pair. */
  lemma PairSlot(row: nat, k: nat)
    requires k < 16
    ensures var b := 16 * row + k;
            var j := (b / 2) % 8 + ((b / 2) % 8) / 8;
            j < 8 && (k == 2 * j || k == 2 * j + 1) && (b % 2 == 0 <==> k == 2 * j)
  {
    var b := 16 * row + k;
    assert b == 2 * (8 * row + k / 2) + k % 2;
    assert b / 2 == 8 * row + k / 2;
    assert (8 * row + k / 2) % 8 == k / 2;
  }
  lemma ShiftMod16(x: nat, r: nat)
    ensures (16 * x + r) % 16 == r % 16
  {
  }
  lemma ShiftMod8(x: nat, r: nat)
    ensures (8 * x + r) % 8 == r % 8
  {
  }
  lemma ShiftMod4(x: nat, r: nat)
    ensures (4 * x + r) % 4 == r % 4
  {
  }
  /** The tests on the count of bytes done after byte k of line `row`. */
  lemma Boundary(row: nat, k: nat)
    requires k < 16
    ensures var done := 16 * row + k + 1;
            && (done % 16 == 0 <==> k == 15)
            && (done % 8 == 0 <==> k == 7 || k == 15)
            && (done % 4 == 0 <==> k == 3 || k == 7 || k == 11 || k == 15)
  {
    var done := 16 * row + k + 1;
    assert done == 16 * row + (k + 1) == 8 * (2 * row) + (k + 1) == 4 * (4 * row) + (k + 1);
    ShiftMod16(row, k + 1);
    ShiftMod8(2 * row, k + 1);
    ShiftMod4(4 * row, k + 1);
  }

  /** What strncpy leaves in place before `at`, and what it writes. */
  lemma WriteStrParts(s: seq<char>, at: nat, src: string, n: nat)
    requires at + n <= |s| && |src| <= n
    ensures var r := WriteStr(s, at, src, n);
            r[..at] == s[..at] && r[at..at + |src|] == src
  {
    var r := WriteStr(s, at, src, n);
    assert r[at..at + |src|] == StrNText(src, n)[..|src|];
  }

  /** The last character of the buffer after strncpy. */
  lemma WriteStrLast(s: seq<char>, at: nat, src: string, n: nat)
    requires at + n <= |s| && |src| <= n && 0 < n
    ensures var r := WriteStr(s, at, src, n);
            r[|s| - 1] == (if at + n < |s| then s[|s| - 1] else if |src| < n then '\0' else src[n - 1])
  {
    if at + n == |s| {
      assert WriteStr(s, at, src, n)[|s| - 1] == StrNText(src, n)[n - 1];
    }
  }

  /** The gap written after cell k keeps what precedes it and leaves the last character. */
  lemma GapKeepsCell(mid: seq<char>, h: nat, cell: string, gapN: nat)
    requires |mid| == 58 && h + 6 + gapN <= 57 && |cell| == 3 && mid[h..h + 3] == cell && 3 <= gapN <= 4
    ensures var t := WriteStr(mid, h + 3, "   ", gapN);
            t[..h] == mid[..h] && t[h..h + 3] == cell && t[h + 3..h + 6] == "   " && t[57] == mid[57]
  {
    var t := WriteStr(mid, h + 3, "   ", gapN);
    WriteStrParts(mid, h + 3, "   ", gapN);
    WriteStrLast(mid, h + 3, "   ", gapN);
    assert t[..h + 3] == mid[..h + 3];
    assert t[..h] == mid[..h] && t[h..h + 3] == mid[h..h + 3];
  }

  /**
   * The hex column after writing cell k (three characters at hexindex k)
   * and, after the fourth, eighth and twelfth cell, the three-space gap.
   */
  lemma LayoutStep(before: seq<char>, after: seq<char>, cells: seq<string>, k: nat)
    requires CellsOfThree(cells) && k < 16 && |before| == |after| == 58
    requires before[..HexLen(k)] == Layout(cells, k)
    requires after[..HexIndex(k)] == before[..HexIndex(k)]
    requires after[HexIndex(k)..HexIndex(k) + 3] == cells[k]
    requires k == 3 || k == 7 || k == 11 ==> after[HexIndex(k) + 3..HexIndex(k) + 6] == "   "
    ensures after[..HexLen(k + 1)] == Layout(cells, k + 1)
  {
    HexLenStep(k);
    if k == 3 || k == 7 || k == 11 {
      assert after[..HexLen(k + 1)] == after[..HexIndex(k)] + after[HexIndex(k)..HexIndex(k) + 3]
                                        + after[HexIndex(k) + 3..HexIndex(k) + 6];
    } else {
      assert after[..HexLen(k + 1)] == after[..HexIndex(k)] + after[HexIndex(k)..HexIndex(k) + 3];
    }
  }

  /** The text column after writing byte k at ascindex k and, after the eighth, the spacer. */
  lemma AscStep(before: seq<char>, after: seq<char>, data: seq<byte>, base: nat, k: nat)
    requires k < 16 && |before| == |after| == 18
    requires before[..AscLen(k)] == AscPrefix(data, base, k)
    requires forall i :: 0 <= i < AscIndex(k) ==> after[i] == before[i]
    requires after[AscIndex(k)] == AscCell(data, base + k)
    requires k == 7 ==> after[AscIndex(k) + 1] == ' '
    ensures after[..AscLen(k + 1)] == AscPrefix(data, base, k + 1)
  {
    assert after[..AscIndex(k)] == before[..AscLen(k)];
    if k == 7 {
      assert after[..AscLen(k + 1)] == after[..AscIndex(k)] + [after[AscIndex(k)]] + [after[AscIndex(k) + 1]];
    } else {
      assert after[..AscLen(k + 1)] == after[..AscIndex(k)] + [after[AscIndex(k)]];
    }
  }

  /**
   * A full line's buffers print as the line's hex and text columns, which
   * extend the dump by one line; the same buffers then hold the empty start
   * of the next line.
   */
  lemma LineComplete(hex: seq<char>, asc: seq<char>, data: seq<byte>, row: nat)
    requires Filling(hex, asc, data, 16 * row, 16)
    ensures CString(hex, '\0') == HexRow(data, 16 * row) && CString(asc, '\0') == AscRow(data, 16 * row)
    ensures DumpRows(data, row) + [DumpLine(HexRow(data, 16 * row), AscRow(data, 16 * row))] == DumpRows(data, row + 1)
    ensures Filling(hex, asc, data, 16 * (row + 1), 0)
  {
    FullHexLine(hex, data, 16 * row);
    CStringAt(asc, '\0', 17);
  }

  /** One iteration's writes into the hex buffer: the cell of byte k at hexindex k, then the gap if one follows. */
  lemma HexByteStep(s: seq<char>, mid: seq<char>, t: seq<char>, data: seq<byte>, base: nat, k: nat,
                    byteindex: nat, cellN: nat, padN: nat, gapN: nat)
    requires |s| == 58 && k < 16 && byteindex == base + k
    requires 3 <= cellN <= 4 && 3 <= padN <= 4 && 3 <= gapN <= 4 && s[57] == '\0'
    requires mid == WriteStr(s, HexIndex(k), HexCell(data, byteindex), if byteindex < |data| then cellN else padN)
    requires t == if k == 3 || k == 7 || k == 11 then WriteStr(mid, HexIndex(k) + 3, "   ", gapN) else mid
    ensures |t| == 58 && t[57] == '\0'
    ensures t[..HexIndex(k)] == s[..HexIndex(k)] && t[HexIndex(k)..HexIndex(k) + 3] == HexCell(data, byteindex)
    ensures k == 3 || k == 7 || k == 11 ==> t[HexIndex(k) + 3..HexIndex(k) + 6] == "   "
  {
    HexWrites(s, mid, t, HexIndex(k), HexCell(data, byteindex), if byteindex < |data| then cellN else padN,
              gapN, k == 3 || k == 7 || k == 11);
  }

  /** One iteration's effect on the hex buffer, stated over the buffer's three snapshots. */
  lemma HexStep(s: seq<char>, mid: seq<char>, t: seq<char>, data: seq<byte>, base: nat, k: nat,
                byteindex: nat, cellN: nat, padN: nat, gapN: nat)
    requires k < 16 && HexFilling(s, data, base, k) && byteindex == base + k
    requires 3 <= cellN <= 4 && 3 <= padN <= 4 && 3 <= gapN <= 4
    requires mid == WriteStr(s, HexIndex(k), HexCell(data, byteindex), if byteindex < |data| then cellN else padN)
    requires t == if k == 3 || k == 7 || k == 11 then WriteStr(mid, HexIndex(k) + 3, "   ", gapN) else mid
    ensures |t| == 58 && t[..HexLen(k + 1)] == HexPrefix(data, base, k + 1) && t[57] == '\0'
  {
    HexByteStep(s, mid, t, data, base, k, byteindex, cellN, padN, gapN);
    HexCellStep(s, t, data, base, k, byteindex);
  }

  /** The hex column grows by the cell of byte k (and the gap after it) when the buffer holds them. */
  lemma HexCellStep(s: seq<char>, t: seq<char>, data: seq<byte>, base: nat, k: nat, byteindex: nat)
    requires |s| == 58 && |t| == 58 && k < 16 && byteindex == base + k
    requires s[..HexLen(k)] == HexPrefix(data, base, k)
    requires t[..HexIndex(k)] == s[..HexIndex(k)] && t[HexIndex(k)..HexIndex(k) + 3] == HexCell(data, byteindex)
    requires k == 3 || k == 7 || k == 11 ==> t[HexIndex(k) + 3..HexIndex(k) + 6] == "   "
    ensures t[..HexLen(k + 1)] == HexPrefix(data, base, k + 1)
  {
    var cells := HexCells(data, base);
    assert cells[k] == HexCell(data, base + k);
    LayoutStep(s, t, cells, k);
  }

  /** The buffer after copying a cell at h and, when `gap`, three spaces after it. */
  lemma HexWrites(s: seq<char>, mid: seq<char>, t: seq<char>, h: nat, cell: string, n: nat, gapN: nat, gap: bool)
    requires |s| == 58 && h + 3 < 58 && |cell| == 3 && 3 <= n <= 4 && h + n <= 58 && s[57] == '\0'
    requires gap ==> h + 6 + gapN <= 57 && 3 <= gapN <= 4
    requires mid == WriteStr(s, h, cell, n)
    requires t == if gap then WriteStr(mid, h + 3, "   ", gapN) else mid
    ensures |t| == 58 && t[..h] == s[..h] && t[h..h + 3] == cell && t[57] == '\0'
    ensures gap ==> t[h + 3..h + 6] == "   "
  {
    CellWrite(s, h, cell, n);
    if gap {
      GapKeepsCell(mid, h, cell, gapN);
    }
  }

  /** A cell of three characters copied with three or four characters into a line's hex buffer. */
  lemma CellWrite(s: seq<char>, h: nat, cell: string, n: nat)
    requires |s| == 58 && h + 3 < 58 && |cell| == 3 && 3 <= n <= 4 && h + n <= 58 && s[57] == '\0'
    ensures var mid := WriteStr(s, h, cell, n);
            mid[..h] == s[..h] && mid[h..h + 3] == cell && mid[57] == '\0'
  {
    WriteStrParts(s, h, cell, n);
    WriteStrLast(s, h, cell, n);
  }

  /** One iteration's effect on the text buffer, stated over the buffer's three snapshots. */
  lemma AscByteStep(s: seq<char>, mid: seq<char>, t: seq<char>, data: seq<byte>, base: nat, k: nat, byteindex: nat)
    requires |s| == 18 && k < 16 && byteindex == base + k
    requires s[..AscLen(k)] == AscPrefix(data, base, k) && s[17] == '\0'
    requires mid == s[AscIndex(k) := AscCell(data, byteindex)]
    requires t == if k == 7 then mid[AscIndex(k) + 1 := ' '] else mid
    ensures t[..AscLen(k + 1)] == AscPrefix(data, base, k + 1) && t[17] == '\0'
  {
    AscStep(s, t, data, base, k);
  }

  // -----------------------------------------------------------------------
  // The wide text column of dumpmemoryw.

  /**
   * The wide text buffer after the first k bytes of the line at offset base:
   * every slot whose two bytes are done holds its character, a slot whose
   * first byte is done holds it when the word lies inside the region, and
   * slot 8 is still the terminating NUL.
   */
  predicate UniFilling(uni: seq<wchar>, data: seq<byte>, base: nat, k: nat)
  {
    && |uni| == 18 && uni[8] == 0
    && (forall j :: 0 <= j < 8 && 2 * j + 2 <= k ==> uni[j] == WideCell(data, base + 2 * j))
    && (forall j :: 0 <= j < 8 && 2 * j + 1 == k && base + k < |data| ==> uni[j] == WideCell(data, base + 2 * j))
  }

  /**
   * The wide text buffer after the first half of the iteration for byte b,
   * byte k of its line, whose pair has slot j: an even byte whose word lies
   * inside the region writes the word's character, padding writes '.'.
   */
  function UniFirst(u: seq<wchar>, data: seq<byte>, b: nat, k: nat, j: nat): seq<wchar>
    requires |u| == 18 && j < 8
  {
    if b < |data| then (if k == 2 * j && b + 1 < |data| then u[j := WordChar(WordAt(data, b))] else u)
    else u[j := '.' as int as wchar]
  }

  lemma UniByteStep(u: seq<wchar>, mid: seq<wchar>, t: seq<wchar>, data: seq<byte>, base: nat, k: nat,
                    j: nat, byteindex: nat)
    requires k < 16 && j < 8 && (k == 2 * j || k == 2 * j + 1) && byteindex == base + k
    requires UniFilling(u, data, base, k)
    requires mid == UniFirst(u, data, byteindex, k, j)
    requires t == if k == 7 then mid[j + 1 := ' ' as int as wchar] else mid
    ensures UniFilling(t, data, base, k + 1)
  {
    forall i | 0 <= i < 8 && 2 * i + 2 <= k + 1
      ensures t[i] == WideCell(data, base + 2 * i)
    {
      if i == j {
        assert k == 2 * j + 1;
        assert t[i] == mid[i];
      }
    }
  }

  /** A full line's hex buffer prints as the line's hex column. */
  lemma FullHexLine(hex: seq<char>, data: seq<byte>, base: nat)
    requires HexFilling(hex, data, base, 16)
    ensures CString(hex, '\0') == HexRow(data, base)
  {
    LayoutNoNul(HexCells(data, base), 16);
    CStringAt(hex, '\0', 57);
  }

  /** The same for the hex and wide text buffers of dumpmemoryw. */
  lemma WideLineComplete(hex: seq<char>, uni: seq<wchar>, data: seq<byte>, row: nat)
    requires HexFilling(hex, data, 16 * row, 16) && UniFilling(uni, data, 16 * row, 16)
    ensures CString(hex, '\0') == HexRow(data, 16 * row) && CString(uni, 0) == WideRow(data, 16 * row)
    ensures WideDumpRows(data, row) + [WideDumpLine(HexRow(data, 16 * row), WideRow(data, 16 * row))]
            == WideDumpRows(data, row + 1)
    ensures HexFilling(hex, data, 16 * (row + 1), 0) && UniFilling(uni, data, 16 * (row + 1), 0)
  {
    FullHexLine(hex, data, 16 * row);
    assert uni[..8] == WideRow(data, 16 * row);
    CStringAt(uni, 0, 8);
  }

  /**
   * dumpmemoryw's guard for reading the word at byte b, as written:
   * b is even and b + 1 is below the padded dump length.
   */
  predicate ReadsWordAsWritten(b: nat, dumplen: nat)
  {
    b % 2 == 0 && b + 1 < dumplen
  }

  /** The guard the routine needs: b is even and the word's second byte is inside the region. */
  predicate ReadsWord(b: nat, size: nat)
  {
    b % 2 == 0 && b + 1 < size
  }

  /**
   * For a region of odd size the guard as written lets the routine read
   * the word at the last byte, whose second byte lies outside the region.
   */
  lemma AsWrittenReadsPastRegion(size: nat)
    requires size % 2 == 1
    ensures ReadsWordAsWritten(size - 1, PaddedLength(size))
    ensures size - 1 < size && !(size - 1 + 1 < size)
    ensures !ReadsWord(size - 1, size)
  {
    OddIsNotWholeLines(size);
  }

  lemma ParityShift(x: nat, r: nat)
    ensures (2 * x + r) % 2 == r % 2
  {
  }

  lemma OddIsNotWholeLines(size: nat)
    requires size % 2 == 1
    ensures size % 16 != 0 && (size - 1) % 2 == 0
  {
    var q, r := size / 16, size % 16;
    assert size == 2 * (8 * q) + r;
    ParityShift(8 * q, r);
    var p := size / 2;
    assert size - 1 == 2 * p + 0;
    ParityShift(p, 0);
  }

  /**
   * That is the only byte where the two guards differ, and the next
   * iteration is padding in the same line that writes the same text slot.
   */
  lemma GuardsDifferOnlyAtLastOddByte(size: nat, b: nat)
    requires b < size && ReadsWordAsWritten(b, PaddedLength(size)) != ReadsWord(b, size)
    ensures b == size - 1 && size % 2 == 1
    ensures b + 1 < PaddedLength(size) && (b + 1) / 16 == b / 16
    ensures ((b + 1) / 2) % 8 == (b / 2) % 8
  {
  }

  /** The line and the position in it after byte k of line `row`. */
  function RowAfter(row: nat, k: nat): nat
  {
    if k == 15 then row + 1 else row
  }

  function ColumnAfter(k: nat): nat
  {
    if k == 15 then 0 else k + 1
  }

  // -----------------------------------------------------------------------
  // The index arithmetic of one loop iteration.

  /**
   * Where byte `byteindex`, byte k of line `row`, goes:
   * hexindex = 3 * (byteindex % 16 + (byteindex % 16) / 4) and
   * ascindex = byteindex % 16 + (byteindex % 16) / 8.
   */
  method Columns(byteindex: nat, ghost row: nat, ghost k: nat) returns (hexindex: nat, ascindex: nat)
    requires byteindex == 16 * row + k && k < 16
    ensures hexindex == HexIndex(k) && ascindex == AscIndex(k)
  {
    LineOffset(row, k);
    ColumnFormulas(k);
    hexindex := 3 * ((byteindex % 16) + ((byteindex % 16) / 4));
    ascindex := (byteindex % 16) + (byteindex % 16) / 8;
  }

  /**
   * The three tests on the count of bytes done after byte k of line `row`:
   * a multiple of 16 ends the line, of 8 takes the text spacer, of 4 the hex gap.
   */
  method Boundaries(bytesdone: nat, ghost row: nat, ghost k: nat) returns (lineDone: bool, halfDone: bool, wordDone: bool)
    requires bytesdone == 16 * row + k + 1 && k < 16
    ensures lineDone <==> k == 15
    ensures halfDone <==> k == 7 || k == 15
    ensures wordDone <==> k == 3 || k == 7 || k == 11 || k == 15
  {
    Boundary(row, k);
    lineDone := bytesdone % 16 == 0;
    halfDone := bytesdone % 8 == 0;
    wordDone := bytesdone % 4 == 0;
  }

  /**
   * dumpmemoryw's columns for byte `byteindex`, byte k of line `row`:
   * hexindex as above, uniindex = (byteindex / 2) % 8 + ((byteindex / 2) % 8) / 8,
   * the slot of the byte pair, and whether byteindex is even.
   */
  method WideColumns(byteindex: nat, ghost row: nat, ghost k: nat) returns (hexindex: nat, uniindex: nat, even: bool)
    requires byteindex == 16 * row + k && k < 16
    ensures hexindex == HexIndex(k) && uniindex < 8
    ensures k == 2 * uniindex || k == 2 * uniindex + 1
    ensures even <==> k == 2 * uniindex
  {
    LineOffset(row, k);
    ColumnFormulas(k);
    PairSlot(row, k);
    hexindex := 3 * ((byteindex % 16) + ((byteindex % 16) / 4));
    uniindex := ((byteindex / 2) % 8) + ((byteindex / 2) % 8) / 8;
    even := byteindex % 2 == 0;
  }

  // -----------------------------------------------------------------------
  // The writes of one loop iteration.

  /**
   * The first half of an iteration for byte `byteindex` (byte k of its
   * line): inside the data, its "XX " cell copied with cellN characters and
   * its character; past the end, three spaces copied with padN characters
   * and a '.'.
   */
  method PutByte(hexdump: array<char>, ascdump: array<char>, data: seq<byte>, byteindex: nat,
                 hexindex: nat, ascindex: nat, ghost k: nat, cellN: nat, padN: nat)
    requires hexdump.Length == 58 && ascdump.Length == 18 && hexdump != ascdump
    requires k < 16 && hexindex == HexIndex(k) && ascindex == AscIndex(k)
    requires 3 <= cellN <= 4 && 3 <= padN <= 4
    modifies hexdump, ascdump
    ensures hexdump[..] == WriteStr(old(hexdump[..]), HexIndex(k), HexCell(data, byteindex),
                                    if byteindex < |data| then cellN else padN)
    ensures ascdump[..] == old(ascdump[..])[AscIndex(k) := AscCell(data, byteindex)]
  {
    if byteindex < |data| {
      var datum := data[byteindex];
      var formatbuf := Hex2(datum) + " ";
      StrNCpy(hexdump, hexindex, formatbuf, cellN);
      if IsGraph(datum) {
        ascdump[ascindex] := datum as int as char;
      } else {
        ascdump[ascindex] := '.';
      }
    } else {
      // Padding out the last line.
      StrNCpy(hexdump, hexindex, "   ", padN);
      ascdump[ascindex] := '.';
    }
  }

  /**
   * The second half of an iteration that does not end a line: after every
   * eighth byte a spacer in the text column, after every fourth a
   * three-space gap copied with gapN characters in the hex column.
   */
  method PutSpacers(hexdump: array<char>, ascdump: array<char>, halfDone: bool, wordDone: bool,
                    hexindex: nat, ascindex: nat, ghost k: nat, gapN: nat)
    requires hexdump.Length == 58 && ascdump.Length == 18 && hexdump != ascdump
    requires k < 15 && hexindex == HexIndex(k) && ascindex == AscIndex(k) && 3 <= gapN <= 4
    requires halfDone <==> k == 7
    requires wordDone <==> k == 3 || k == 7 || k == 11
    modifies hexdump, ascdump
    ensures hexdump[..] == if k == 3 || k == 7 || k == 11
                           then WriteStr(old(hexdump[..]), HexIndex(k) + 3, "   ", gapN)
                           else old(hexdump[..])
    ensures ascdump[..] == if k == 7 then old(ascdump[..])[AscIndex(k) + 1 := ' '] else old(ascdump[..])
  {
    if halfDone {
      ascdump[ascindex + 1] := ' ';
    }
    if wordDone {
      StrNCpy(hexdump, hexindex + 3, "   ", gapN);
    }
  }

  /** The hex buffer holds the first k bytes of the line at offset base, and its terminating NUL. */
  predicate HexFilling(hex: seq<char>, data: seq<byte>, base: nat, k: nat)
    requires k <= 16
  {
    |hex| == 58 && hex[..HexLen(k)] == HexPrefix(data, base, k) && hex[57] == '\0'
  }

  /** Both buffers of the ASCII routines hold the first k bytes of the line at offset base. */
  predicate Filling(hex: seq<char>, asc: seq<char>, data: seq<byte>, base: nat, k: nat)
    requires k <= 16
  {
    && HexFilling(hex, data, base, k)
    && |asc| == 18 && asc[..AscLen(k)] == AscPrefix(data, base, k) && asc[17] == '\0'
  }

  /**
   * One iteration of the loops of dumpmemorya and dumpuserdatablock, for
   * byte `byteindex` (byte k of line `row`), with `bytesdone` already
   * counting it: the byte's writes, then either the line it completes or
   * the spacers that follow it.
   */
  method DumpByte(hexdump: array<char>, ascdump: array<char>, data: seq<byte>, byteindex: nat, bytesdone: nat,
                  ghost row: nat, ghost k: nat, cellN: nat, padN: nat, gapN: nat) returns (out: seq<Message>)
    requires hexdump.Length == 58 && ascdump.Length == 18 && hexdump != ascdump
    requires byteindex == 16 * row + k && bytesdone == byteindex + 1 && k < 16
    requires 3 <= cellN <= 4 && 3 <= padN <= 4 && 3 <= gapN <= 4
    requires Filling(hexdump[..], ascdump[..], data, 16 * row, k)
    modifies hexdump, ascdump
    ensures k < 15 ==> out == []
    ensures k == 15 ==> out == [DumpLine(HexRow(data, 16 * row), AscRow(data, 16 * row))]
    ensures DumpRows(data, row) + out == DumpRows(data, RowAfter(row, k))
    ensures Filling(hexdump[..], ascdump[..], data, 16 * RowAfter(row, k), ColumnAfter(k))
  {
    ghost var hex, asc := hexdump[..], ascdump[..];
    var hexindex, ascindex := Columns(byteindex, row, k);
    PutByte(hexdump, ascdump, data, byteindex, hexindex, ascindex, k, cellN, padN);
    ghost var hexMid, ascMid := hexdump[..], ascdump[..];
    var lineDone, halfDone, wordDone := Boundaries(bytesdone, row, k);
    if lineDone {
      ByteWritten(hex, asc, hexMid, ascMid, hexMid, ascMid, data, row, k, byteindex, cellN, padN, gapN);
      out := [DumpLine(CString(hexdump[..], '\0'), CString(ascdump[..], '\0'))];
    } else {
      PutSpacers(hexdump, ascdump, halfDone, wordDone, hexindex, ascindex, k, gapN);
      ByteWritten(hex, asc, hexMid, ascMid, hexdump[..], ascdump[..], data, row, k, byteindex, cellN, padN, gapN);
      out := [];
    }
  }

  /** What one iteration of the ASCII loops leaves in the two buffers, and the line it completes. */
  lemma ByteWritten(hex: seq<char>, asc: seq<char>, hexMid: seq<char>, ascMid: seq<char>,
                    hexNew: seq<char>, ascNew: seq<char>, data: seq<byte>, row: nat, k: nat,
                    byteindex: nat, cellN: nat, padN: nat, gapN: nat)
    requires k < 16 && byteindex == 16 * row + k
    requires 3 <= cellN <= 4 && 3 <= padN <= 4 && 3 <= gapN <= 4
    requires Filling(hex, asc, data, 16 * row, k)
    requires hexMid == WriteStr(hex, HexIndex(k), HexCell(data, byteindex), if byteindex < |data| then cellN else padN)
    requires ascMid == asc[AscIndex(k) := AscCell(data, byteindex)]
    requires hexNew == if k == 3 || k == 7 || k == 11 then WriteStr(hexMid, HexIndex(k) + 3, "   ", gapN) else hexMid
    requires ascNew == if k == 7 then ascMid[AscIndex(k) + 1 := ' '] else ascMid
    ensures Filling(hexNew, ascNew, data, 16 * RowAfter(row, k), ColumnAfter(k))
    ensures k < 15 ==> DumpRows(data, row) + [] == DumpRows(data, RowAfter(row, k))
    ensures k == 15 ==> && CString(hexNew, '\0') == HexRow(data, 16 * row) && CString(ascNew, '\0') == AscRow(data, 16 * row)
                        && DumpRows(data, row) + [DumpLine(HexRow(data, 16 * row), AscRow(data, 16 * row))]
                           == DumpRows(data, RowAfter(row, k))
  {
    HexStep(hex, hexMid, hexNew, data, 16 * row, k, byteindex, cellN, padN, gapN);
    AscByteStep(asc, ascMid, ascNew, data, 16 * row, k, byteindex);
    if k == 15 {
      LineComplete(hexNew, ascNew, data, row);
    } else {
      assert DumpRows(data, row) + [] == DumpRows(data, row);
    }
  }

  /**
   * One iteration of the loop of dumpmemoryw for byte `byteindex` (byte k
   * of line `row`), with `bytesdone` already counting it. The word is read
   * only under ReadsWord, the corrected guard.
   */
  method DumpByteW(hexdump: array<char>, unidump: array<wchar>, data: seq<byte>, byteindex: nat, bytesdone: nat,
                   ghost row: nat, ghost k: nat) returns (out: seq<Message>)
    requires hexdump.Length == 58 && unidump.Length == 18
    requires byteindex == 16 * row + k && bytesdone == byteindex + 1 && k < 16
    requires HexFilling(hexdump[..], data, 16 * row, k) && UniFilling(unidump[..], data, 16 * row, k)
    modifies hexdump, unidump
    ensures k < 15 ==> out == []
    ensures k == 15 ==> out == [WideDumpLine(HexRow(data, 16 * row), WideRow(data, 16 * row))]
    ensures WideDumpRows(data, row) + out == WideDumpRows(data, RowAfter(row, k))
    ensures HexFilling(hexdump[..], data, 16 * RowAfter(row, k), ColumnAfter(k))
    ensures UniFilling(unidump[..], data, 16 * RowAfter(row, k), ColumnAfter(k))
  {
    ghost var hex, uni := hexdump[..], unidump[..];
    var hexindex, uniindex, even := WideColumns(byteindex, row, k);
    PutByteW(hexdump, unidump, data, byteindex, hexindex, uniindex, even, k);
    ghost var hexMid, uniMid := hexdump[..], unidump[..];
    var lineDone, halfDone, wordDone := Boundaries(bytesdone, row, k);
    if lineDone {
      WideByteWritten(hex, uni, hexMid, uniMid, hexMid, uniMid, data, row, k, uniindex, byteindex);
      out := [WideDumpLine(CString(hexdump[..], '\0'), CString(unidump[..], 0))];
    } else {
      PutSpacersW(hexdump, unidump, halfDone, wordDone, hexindex, uniindex, k);
      WideByteWritten(hex, uni, hexMid, uniMid, hexdump[..], unidump[..], data, row, k, uniindex, byteindex);
      out := [];
    }
  }

  /** What one iteration of dumpmemoryw leaves in the two buffers, and the line it completes. */
  lemma WideByteWritten(hex: seq<char>, uni: seq<wchar>, hexMid: seq<char>, uniMid: seq<wchar>,
                        hexNew: seq<char>, uniNew: seq<wchar>, data: seq<byte>, row: nat, k: nat,
                        j: nat, byteindex: nat)
    requires k < 16 && j < 8 && (k == 2 * j || k == 2 * j + 1) && byteindex == 16 * row + k
    requires HexFilling(hex, data, 16 * row, k) && UniFilling(uni, data, 16 * row, k)
    requires hexMid == WriteStr(hex, HexIndex(k), HexCell(data, byteindex), 4)
    requires uniMid == UniFirst(uni, data, byteindex, k, j)
    requires hexNew == if k == 3 || k == 7 || k == 11 then WriteStr(hexMid, HexIndex(k) + 3, "   ", 4) else hexMid
    requires uniNew == if k == 7 then uniMid[j + 1 := ' ' as int as wchar] else uniMid
    ensures HexFilling(hexNew, data, 16 * RowAfter(row, k), ColumnAfter(k))
    ensures UniFilling(uniNew, data, 16 * RowAfter(row, k), ColumnAfter(k))
    ensures k < 15 ==> WideDumpRows(data, row) + [] == WideDumpRows(data, RowAfter(row, k))
    ensures k == 15 ==> && CString(hexNew, '\0') == HexRow(data, 16 * row) && CString(uniNew, 0) == WideRow(data, 16 * row)
                        && WideDumpRows(data, row) + [WideDumpLine(HexRow(data, 16 * row), WideRow(data, 16 * row))]
                           == WideDumpRows(data, RowAfter(row, k))
  {
    HexStep(hex, hexMid, hexNew, data, 16 * row, k, byteindex, 4, 4, 4);
    UniByteStep(uni, uniMid, uniNew, data, 16 * row, k, j, byteindex);
    if k == 15 {
      WideLineComplete(hexNew, uniNew, data, row);
    } else {
      assert WideDumpRows(data, row) + [] == WideDumpRows(data, row);
    }
  }


  /**
   * The first half of an iteration of dumpmemoryw: the byte's hex cell and,
   * on an even byte whose word lies inside the region, the word's character;
   * past the end, three spaces and a '.'.
   */
  method PutByteW(hexdump: array<char>, unidump: array<wchar>, data: seq<byte>, byteindex: nat,
                  hexindex: nat, uniindex: nat, even: bool, ghost k: nat)
    requires hexdump.Length == 58 && unidump.Length == 18
    requires k < 16 && hexindex == HexIndex(k) && uniindex < 8 && (even <==> k == 2 * uniindex)
    modifies hexdump, unidump
    ensures hexdump[..] == WriteStr(old(hexdump[..]), HexIndex(k), HexCell(data, byteindex), 4)
    ensures unidump[..] == UniFirst(old(unidump[..]), data, byteindex, k, uniindex)
  {
    if byteindex < |data| {
      var b := data[byteindex];
      var formatbuf := Hex2(b) + " ";
      StrNCpy(hexdump, hexindex, formatbuf, 4);
      if even && byteindex + 1 < |data| {
        // On every even byte, one character.
        var word := WordAt(data, byteindex);
        if word == 0 || word == 0x20 {
          unidump[uniindex] := '.' as int as wchar;
        } else {
          unidump[uniindex] := word;
        }
      }
    } else {
      // Padding out the last line.
      StrNCpy(hexdump, hexindex, "   ", 4);
      unidump[uniindex] := '.' as int as wchar;
    }
  }

  /** The second half of an iteration of dumpmemoryw that does not end a line. */
  method PutSpacersW(hexdump: array<char>, unidump: array<wchar>, halfDone: bool, wordDone: bool,
                     hexindex: nat, uniindex: nat, ghost k: nat)
    requires hexdump.Length == 58 && unidump.Length == 18
    requires k < 15 && hexindex == HexIndex(k) && uniindex < 8
    requires halfDone <==> k == 7
    requires wordDone <==> k == 3 || k == 7 || k == 11
    modifies hexdump, unidump
    ensures hexdump[..] == if k == 3 || k == 7 || k == 11
                           then WriteStr(old(hexdump[..]), HexIndex(k) + 3, "   ", 4)
                           else old(hexdump[..])
    ensures unidump[..] == if k == 7 then old(unidump[..])[uniindex + 1 := ' ' as int as wchar] else old(unidump[..])
  {
    if halfDone {
      unidump[uniindex + 1] := ' ' as int as wchar;
    }
    if wordDone {
      StrNCpy(hexdump, hexindex + 3, "   ", 4);
    }
  }

  // -----------------------------------------------------------------------
  // The three routines.

  /**
   * dumpmemorya: the whole region, padded to whole lines; bytes for which
   * isgraph holds are shown as themselves in the text column.
   */
  method DumpMemoryA(data: seq<byte>) returns (lines: seq<Message>)
    ensures lines == DumpRows(data, PaddedLength(|data|) / 16)
  {
    var ascdump := new char[18](_ => '\0');
    var hexdump := new char[58](_ => '\0');
    var size := |data|;
    // Each line is 16 bytes; the last one is padded out.
    var dumplen := PaddedLength(size);

    lines := [];
    var bytesdone: nat := 0;
    var byteindex: nat := 0;
    // The line being filled and how many of its bytes are done.
    ghost var row, k := 0, 0;
    while byteindex < dumplen
      invariant byteindex <= dumplen && bytesdone == byteindex
      invariant byteindex == 16 * row + k && k < 16
      invariant lines == DumpRows(data, row)
      invariant Filling(hexdump[..], ascdump[..], data, 16 * row, k)
    {
      bytesdone := bytesdone + 1;
      var out := DumpByte(hexdump, ascdump, data, byteindex, bytesdone, row, k, 4, 4, 4);
      lines := lines + out;
      row, k := RowAfter(row, k), ColumnAfter(k);
      byteindex := byteindex + 1;
    }
    WholeLines(size, row, k);
  }

  /**
   * dumpuserdatablock (vld.cpp): the "  Data:" label, then at most
   * maxDataDump bytes of the block's user data, padded to whole lines.
   * isprint(datum) && datum != ' ' is isgraph; the padding and the gaps are
   * copied with three characters, the byte cells with four.
   */
  method DumpUserDataBlock(data: seq<byte>, maxDataDump: nat) returns (lines: seq<Message>)
    ensures lines == UserDataLines(data, maxDataDump)
  {
    var ascdump := new char[18](_ => '\0');
    var hexdump := new char[58](_ => '\0');
    var datalen := if maxDataDump < |data| then maxDataDump else |data|;
    var shown := data[..datalen];
    // Each line is 16 bytes; the last one is padded out.
    var dumplen := PaddedLength(datalen);

    lines := [Text(DataLabel)];
    var bytesdone: nat := 0;
    var byteindex: nat := 0;
    ghost var row, k := 0, 0;
    while byteindex < dumplen
      invariant byteindex <= dumplen && bytesdone == byteindex
      invariant byteindex == 16 * row + k && k < 16
      invariant lines == [Text(DataLabel)] + DumpRows(shown, row)
      invariant Filling(hexdump[..], ascdump[..], shown, 16 * row, k)
    {
      bytesdone := bytesdone + 1;
      var out := DumpByte(hexdump, ascdump, shown, byteindex, bytesdone, row, k, 4, 3, 3);
      AppendAssoc([Text(DataLabel)], DumpRows(shown, row), out);
      lines := lines + out;
      row, k := RowAfter(row, k), ColumnAfter(k);
      byteindex := byteindex + 1;
    }
    WholeLines(datalen, row, k);
  }

  /**
   * dumpmemoryw: the whole region, padded to whole lines, with the text
   * column one wide character per byte pair.
   */
  method DumpMemoryW(data: seq<byte>) returns (lines: seq<Message>)
    ensures lines == WideDumpRows(data, PaddedLength(|data|) / 16)
  {
    var unidump := new wchar[18](_ => 0);
    var hexdump := new char[58](_ => '\0');
    var size := |data|;
    // Each line is 16 bytes; the last one is padded out.
    var dumplen := PaddedLength(size);

    lines := [];
    var bytesdone: nat := 0;
    var byteindex: nat := 0;
    ghost var row, k := 0, 0;
    while byteindex < dumplen
      invariant byteindex <= dumplen && bytesdone == byteindex
      invariant byteindex == 16 * row + k && k < 16
      invariant lines == WideDumpRows(data, row)
      invariant HexFilling(hexdump[..], data, 16 * row, k) && UniFilling(unidump[..], data, 16 * row, k)
    {
      bytesdone := bytesdone + 1;
      var out := DumpByteW(hexdump, unidump, data, byteindex, bytesdone, row, k);
      lines := lines + out;
      row, k := RowAfter(row, k), ColumnAfter(k);
      byteindex := byteindex + 1;
    }
    WholeLines(size, row, k);
  }
}
