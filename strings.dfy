/**
 * The small string utilities of utility.cpp (strapp, strtobool) and the C
 * runtime string services they and vld.cpp rely on (case-insensitive
 * comparison, strstr, wcstol), over `string` = `seq<char>`.
 */
module Strings {
  import opened Common

  /** Lower-casing as the C runtime's "C" locale does it: only A-Z change. */
  function ToLower(c: char): char
  {
    if 'A' <= c <= 'Z' then (c as int + 32) as char else c
  }

  /** `_stricmp(a, b) == 0` and `wcsicmp(a, b) == 0`. */
  predicate EqualsIgnoreCase(a: string, b: string)
  {
    |a| == |b| && forall i :: 0 <= i < |a| ==> ToLower(a[i]) == ToLower(b[i])
  }

  predicate StartsWith(t: string, prefix: string)
  {
    |prefix| <= |t| && t[..|prefix|] == prefix
  }

  /** `strstr(s, sub) != NULL`: sub occurs somewhere in s. */
  predicate Contains(s: string, sub: string)
  {
    exists i :: 0 <= i <= |s| && StartsWith(s[i..], sub)
  }

  /**
   * strapp (utility.cpp) as written. The new buffer of |dest| + |source| + 1
   * characters is not initialised; `junk` is what its last slot holds.
   * `wcsncpy` fills the first |dest| + |source| slots (the old destination,
   * then terminators) and `wcsncat` appends the source after the first
   * terminator. None: the buffer holds no terminator, so `wcsncat` would read
   * past its end; that happens exactly when the source is empty and the last
   * slot is not already a terminator.
   */
  method StrAppAsWritten(dest: string, source: string, junk: char) returns (result: Option<string>)
    requires '\0' !in dest && '\0' !in source
    ensures source != [] ==> result == Some(dest + source)
    ensures source == [] ==> (result.None? <==> junk != '\0')
    ensures source == [] && junk == '\0' ==> result == Some(dest)
  {
    var length := |dest| + |source|;
    var buffer := new char[length + 1](_ => junk);
    // wcsncpy(*dest, temp, length)
    var i := 0;
    while i < length
      invariant i <= length
      invariant forall k :: 0 <= k < i ==> buffer[k] == if k < |dest| then dest[k] else '\0'
      invariant buffer[length] == junk
    {
      buffer[i] := if i < |dest| then dest[i] else '\0';
      i := i + 1;
    }
    // wcsncat(*dest, source, length): first the end of the text already there.
    var end := 0;
    while end < buffer.Length && buffer[end] != '\0'
      invariant end <= buffer.Length
      invariant forall k :: 0 <= k < end ==> buffer[k] != '\0'
    {
      end := end + 1;
    }
    // With a non-empty source, wcsncpy wrote a terminator right after the old text.
    assert |dest| < length ==> buffer[|dest|] == '\0';
    if end == buffer.Length {
      // No terminator anywhere in the new buffer.
      return None;
    }
    assert forall k :: 0 <= k < |dest| ==> buffer[k] == dest[k];
    assert end == |dest|;
    var j := 0;
    while j < length && j < |source|
      invariant j <= |source|
      invariant forall k :: 0 <= k < end ==> buffer[k] == dest[k]
      invariant forall k :: 0 <= k < j ==> buffer[end + k] == source[k]
    {
      buffer[end + j] := source[j];
      j := j + 1;
    }
    buffer[end + j] := '\0';
    result := Some(buffer[..end + j]);
    assert buffer[..end + j] == dest + source;
    assert source == [] ==> dest + source == dest;
  }

  /**
   * strapp with the new buffer's last slot zeroed, as the call evidently
   * intends: the destination becomes the old destination followed by the
   * source, an empty source included.
   */
  method StrApp(dest: string, source: string) returns (r: string)
    requires '\0' !in dest && '\0' !in source
    ensures r == dest + source
    ensures '\0' !in r
  {
    var result := StrAppAsWritten(dest, source, '\0');
    r := result.value;
  }

  // ---------------------------------------------------------------------
  // wcstol(s, &end, 10), as strtobool uses it.

  const LONG_MAX: int := 0x7FFF_FFFF
  const LONG_MIN: int := -0x8000_0000

  /** iswspace in the "C" locale. */
  predicate IsSpace(c: char)
  {
    c == ' ' || c == '\t' || c == '\n' || c == '\U{B}' || c == '\U{C}' || c == '\r'
  }

  predicate IsDigit(c: char)
  {
    '0' <= c <= '9'
  }

  predicate AllDigits(d: string)
  {
    forall k :: 0 <= k < |d| ==> IsDigit(d[k])
  }

  /** Index of the first character at or after i that is not white space. */
  function SkipSpaces(s: string, i: nat): (j: nat)
    requires i <= |s|
    ensures i <= j <= |s|
    ensures forall k :: i <= k < j ==> IsSpace(s[k])
    ensures j < |s| ==> !IsSpace(s[j])
    decreases |s| - i
  {
    if i < |s| && IsSpace(s[i]) then SkipSpaces(s, i + 1) else i
  }

  /** Index just past the run of decimal digits starting at i. */
  function DigitsEnd(s: string, i: nat): (j: nat)
    requires i <= |s|
    ensures i <= j <= |s|
    ensures forall k :: i <= k < j ==> IsDigit(s[k])
    ensures j < |s| ==> !IsDigit(s[j])
    decreases |s| - i
  {
    if i < |s| && IsDigit(s[i]) then DigitsEnd(s, i + 1) else i
  }

  /** Index just past the run of '0' characters starting at i. */
  function SkipZeros(s: string, i: nat): (j: nat)
    requires i <= |s|
    ensures i <= j <= |s|
    ensures forall k :: i <= k < j ==> s[k] == '0'
    ensures j < |s| ==> s[j] != '0'
    decreases |s| - i
  {
    if i < |s| && s[i] == '0' then SkipZeros(s, i + 1) else i
  }

  function DigitsValue(d: string): nat
    requires AllDigits(d)
  {
    if d == [] then 0
    else 10 * DigitsValue(d[..|d| - 1]) + (d[|d| - 1] as int - '0' as int)
  }

  /**
   * The value wcstol(s, &end, 10) returns: leading white space is skipped,
   * one optional sign is read, then the longest run of decimal digits; no
   * digits gives 0, and an out-of-range value saturates at LONG_MIN or
   * LONG_MAX (a 32-bit long).
   */
  function WcsTol(s: string): (v: int)
    ensures LONG_MIN <= v <= LONG_MAX
  {
    var p := SkipSpaces(s, 0);
    var negative := p < |s| && s[p] == '-';
    var q := if p < |s| && (s[p] == '+' || s[p] == '-') then p + 1 else p;
    var magnitude: int := DigitsValue(s[q..DigitsEnd(s, q)]);
    if negative then (if -magnitude < LONG_MIN then LONG_MIN else -magnitude)
    else (if magnitude > LONG_MAX then LONG_MAX else magnitude)
  }

  /**
   * Independent description of the strings whose leading integer is 1:
   * optional white space, an optional '+', any number of '0's, a '1', and
   * then the end of the string or a character that is not a digit.
   */
  predicate LeadingOne(s: string)
  {
    var p := SkipSpaces(s, 0);
    var q := if p < |s| && s[p] == '+' then p + 1 else p;
    var z := SkipZeros(s, q);
    z < |s| && s[z] == '1' && (z + 1 == |s| || !IsDigit(s[z + 1]))
  }

  lemma {:induction false} DigitsValueZero(d: string)
    requires AllDigits(d)
    ensures DigitsValue(d) == 0 <==> forall k :: 0 <= k < |d| ==> d[k] == '0'
  {
    if d != [] {
      var init := d[..|d| - 1];
      DigitsValueZero(init);
      if forall k :: 0 <= k < |d| ==> d[k] == '0' {
        assert forall k :: 0 <= k < |init| ==> init[k] == '0';
      } else if DigitsValue(d) == 0 {
        assert DigitsValue(init) == 0 && d[|d| - 1] == '0';
        assert forall k :: 0 <= k < |d| - 1 ==> d[k] == init[k];
      }
    }
  }

  /** A run of digits has value 1 exactly when it is zeros followed by one '1'. */
  lemma {:induction false} DigitsValueOne(d: string)
    requires AllDigits(d)
    ensures DigitsValue(d) == 1 <==>
              (|d| > 0 && d[|d| - 1] == '1' && forall k :: 0 <= k < |d| - 1 ==> d[k] == '0')
  {
    if d != [] {
      var init := d[..|d| - 1];
      DigitsValueZero(init);
      assert forall k :: 0 <= k < |d| - 1 ==> d[k] == init[k];
    }
  }

  /** Where the digits after an optional '+' have value 1, the digit run is zeros and a '1'. */
  lemma PositiveRunIsOne(s: string, q: nat)
    requires q <= |s|
    ensures var e := DigitsEnd(s, q);
            var z := SkipZeros(s, q);
            DigitsValue(s[q..e]) == 1 <==> z < |s| && s[z] == '1' && (z + 1 == |s| || !IsDigit(s[z + 1]))
  {
    var e := DigitsEnd(s, q);
    var z := SkipZeros(s, q);
    var d := s[q..e];
    DigitsValueOne(d);
    if DigitsValue(d) == 1 {
      assert forall k :: q <= k < e - 1 ==> s[k] == d[k - q];
      assert s[e - 1] == d[|d| - 1] == '1';
      assert z == e - 1;
    }
    if z < |s| && s[z] == '1' && (z + 1 == |s| || !IsDigit(s[z + 1])) {
      assert forall k :: q <= k <= z ==> IsDigit(s[k]);
      assert e == z + 1;
      assert forall k :: 0 <= k < |d| - 1 ==> d[k] == s[q + k];
    }
  }

  lemma WcsTolIsOne(s: string)
    ensures WcsTol(s) == 1 <==> LeadingOne(s)
  {
    var p := SkipSpaces(s, 0);
    if p < |s| && s[p] == '-' {
      assert SkipZeros(s, p) == p;
    } else {
      var q := if p < |s| && s[p] == '+' then p + 1 else p;
      PositiveRunIsOne(s, q);
    }
  }

  /**
   * strtobool (utility.cpp): "true", "yes" and "on" in any letter case, or
   * any string whose leading integer is 1, are true; everything else is false.
   */
  function StrToBool(s: string): (r: bool)
    ensures r <==> EqualsIgnoreCase(s, "true") || EqualsIgnoreCase(s, "yes")
                   || EqualsIgnoreCase(s, "on") || LeadingOne(s)
  {
    WcsTolIsOne(s);
    EqualsIgnoreCase(s, "true") || EqualsIgnoreCase(s, "yes") || EqualsIgnoreCase(s, "on")
    || WcsTol(s) == 1
  }
}
