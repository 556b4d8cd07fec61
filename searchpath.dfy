/**
 * The symbol search path (buildsymbolsearchpath in vld.cpp): the directory
 * of the executable, taken from the process command line, followed by the
 * working directory, %SYSTEMROOT%, %SYSTEMROOT%\system32, %_NT_SYMBOL_PATH%
 * and %_NT_ALT_SYMBOL_PATH%, with every quote character deleted. The
 * command line (GetCommandLineA) and the environment (getenv) are inputs.
 */
module SearchPath {
  import opened Common
  import opened Strings

  /** The environment variables the path is built from; None where getenv returns NULL. */
  datatype Environment = Environment(systemRoot: Option<string>, ntSymbolPath: Option<string>, ntAltSymbolPath: Option<string>)

  predicate NoNul(s: string)
  {
    '\0' !in s
  }

  predicate EnvironmentNoNul(env: Environment)
  {
    && (env.systemRoot.Some? ==> NoNul(env.systemRoot.value))
    && (env.ntSymbolPath.Some? ==> NoNul(env.ntSymbolPath.value))
    && (env.ntAltSymbolPath.Some? ==> NoNul(env.ntAltSymbolPath.value))
  }

  // -----------------------------------------------------------------------
  // The executable's token: the command line up to its first space outside quotes.

  /** Whether position i of s lies inside quotes: an odd number of quotes precede it. */
  function Quoted(s: string, i: nat): bool
    requires i <= |s|
  {
    if i == 0 then false
    else if s[i - 1] == '"' then !Quoted(s, i - 1)
    else Quoted(s, i - 1)
  }

  predicate Separator(s: string, i: nat)
    requires i < |s|
  {
    s[i] == ' ' && !Quoted(s, i)
  }

  /** The first unquoted space at or after i, or the end of s. */
  function TokenEnd(s: string, i: nat): (n: nat)
    requires i <= |s|
    ensures i <= n <= |s|
    ensures forall k :: i <= k < n ==> !Separator(s, k)
    ensures n < |s| ==> Separator(s, n)
    decreases |s| - i
  {
    if i == |s| || Separator(s, i) then i else TokenEnd(s, i + 1)
  }

  function Token(command: string): string
  {
    command[..TokenEnd(command, 0)]
  }

  // -----------------------------------------------------------------------
  // The directory part of the token.

  /** Index of the last backslash of t. */
  function LastBackslash(t: string): (r: Option<nat>)
    ensures r.Some? ==> r.value < |t| && t[r.value] == '\\'
                        && forall k :: r.value < k < |t| ==> t[k] != '\\'
    ensures r.None? ==> forall k :: 0 <= k < |t| ==> t[k] != '\\'
  {
    if t == [] then None
    else if t[|t| - 1] == '\\' then Some(|t| - 1)
    else LastBackslash(t[..|t| - 1])
  }

  /** The token up to and including its last backslash; "\" when it has none. */
  function Directory(t: string): string
  {
    match LastBackslash(t)
    case None => "\\"
    case Some(i) => t[..i + 1]
  }

  /** The directory ends with a backslash and is the token's prefix through its last one. */
  lemma DirectoryIsPrefix(t: string)
    ensures var d := Directory(t);
            && |d| > 0 && d[|d| - 1] == '\\'
            && ('\\' in t ==> d <= t && '\\' !in t[|d|..])
            && ('\\' !in t ==> d == "\\")
  {
    var d := Directory(t);
    match LastBackslash(t)
    case None =>
      assert '\\' !in t;
    case Some(i) =>
      assert forall k :: i + 1 <= k < |t| ==> t[k] != '\\';
  }

  // -----------------------------------------------------------------------
  // The appended directories and the finished path.

  /** ";%SYSTEMROOT%;%SYSTEMROOT%\system32", when SYSTEMROOT is set. */
  function RootPart(env: Environment): string
  {
    match env.systemRoot
    case None => ""
    case Some(r) => ";" + r + ";" + r + "\\system32"
  }

  function SymbolPart(env: Environment): string
  {
    match env.ntSymbolPath
    case None => ""
    case Some(p) => ";" + p
  }

  function AltPart(env: Environment): string
  {
    match env.ntAltSymbolPath
    case None => ""
    case Some(p) => ";" + p
  }

  /** What is appended after the executable's directory, in order. */
  function Appended(env: Environment): string
  {
    ";.\\" + RootPart(env) + SymbolPart(env) + AltPart(env)
  }

  lemma AppendedNoNul(env: Environment)
    requires EnvironmentNoNul(env)
    ensures NoNul(Appended(env))
  {
    var root, symbols, alt := RootPart(env), SymbolPart(env), AltPart(env);
    assert NoNul(root) by {
      if env.systemRoot.Some? {
        var r := env.systemRoot.value;
        NoNulConcat(";" + r + ";", r);
        NoNulConcat(";" + r + ";" + r, "\\system32");
      }
    }
    NoNulConcat(";.\\", root);
    NoNulConcat(";.\\" + root, symbols);
    NoNulConcat(";.\\" + root + symbols, alt);
  }

  lemma NoNulConcat(a: string, b: string)
    requires NoNul(a) && NoNul(b)
    ensures NoNul(a + b)
  {
    assert forall i :: 0 <= i < |a + b| ==> (a + b)[i] == if i < |a| then a[i] else b[i - |a|];
  }

  /** Five appends one at a time give the same text as appending their concatenation. */
  lemma AppendFive(x: string, b: string, c: string, d: string, e: string, f: string)
    ensures x + b + c + d + e + f == x + (b + c + d + e + f)
  {
  }

  /** Two appends one at a time give the same text as appending their concatenation. */
  lemma AppendTwo(x: string, b: string, c: string)
    ensures x + b + c == x + (b + c)
  {
  }

  /** s with every quote character deleted. */
  function WithoutQuotes(s: string): (r: string)
    ensures '"' !in r
  {
    if s == [] then [] else (if s[0] == '"' then [] else [s[0]]) + WithoutQuotes(s[1..])
  }

  lemma {:induction false} WithoutQuotesAppend(a: string, b: string)
    ensures WithoutQuotes(a + b) == WithoutQuotes(a) + WithoutQuotes(b)
  {
    if a != [] {
      assert (a + b)[1..] == a[1..] + b;
      WithoutQuotesAppend(a[1..], b);
    } else {
      assert a + b == b;
    }
  }

  /** The symbol search path the detector hands to the symbol handler. */
  function SymbolSearchPath(command: string, env: Environment): string
  {
    WithoutQuotes(Directory(Token(command)) + Appended(env))
  }

  /**
   * The path starts with the executable's directory (quotes deleted) and the
   * working directory ";.\", and holds no quote character.
   */
  lemma SymbolSearchPathShape(command: string, env: Environment)
    ensures var path := SymbolSearchPath(command, env);
            && '"' !in path
            && StartsWith(path, WithoutQuotes(Directory(Token(command))) + ";.\\")
  {
    var dir := Directory(Token(command));
    var rest := Appended(env)[3..];
    AppendedHead(env);
    WorkingDirectoryFollows(dir, rest);
    var path := SymbolSearchPath(command, env);
    assert path == WithoutQuotes(dir + (";.\\" + rest));
  }

  /** Deleting the quotes keeps ";.\" between the directory and what follows. */
  lemma WorkingDirectoryFollows(dir: string, rest: string)
    ensures StartsWith(WithoutQuotes(dir + (";.\\" + rest)), WithoutQuotes(dir) + ";.\\")
  {
    WithoutQuotesAppend(dir, ";.\\" + rest);
    WithoutQuotesAppend(";.\\", rest);
    WorkingDirectoryKept();
    assert WithoutQuotes(dir) + (";.\\" + WithoutQuotes(rest)) == (WithoutQuotes(dir) + ";.\\") + WithoutQuotes(rest);
  }

  lemma AppendedHead(env: Environment)
    ensures Appended(env) == ";.\\" + Appended(env)[3..]
  {
  }

  lemma WorkingDirectoryKept()
    ensures WithoutQuotes(";.\\") == ";.\\"
  {
    assert ";.\\"[1..] == ".\\" && ".\\"[1..] == "\\" && "\\"[1..] == [];
  }

  // -----------------------------------------------------------------------
  // Quote deletion as written: deleting a quote shifts the tail down one
  // place, and the scan then moves past the character that slid into place.

  /** The text the quote-deletion loop leaves: the character after each deleted quote is never examined. */
  function QuotesDeletedAsWritten(s: string): string
  {
    if s == [] then []
    else if s[0] == '"' then (if |s| == 1 then [] else [s[1]] + QuotesDeletedAsWritten(s[2..]))
    else [s[0]] + QuotesDeletedAsWritten(s[1..])
  }

  predicate NoAdjacentQuotes(s: string)
  {
    forall i :: 0 <= i < |s| - 1 ==> !(s[i] == '"' && s[i + 1] == '"')
  }

  /** Without two adjacent quotes the loop as written deletes every quote. */
  lemma {:induction false} AsWrittenDeletesAllQuotes(s: string)
    requires NoAdjacentQuotes(s)
    ensures QuotesDeletedAsWritten(s) == WithoutQuotes(s)
    ensures '"' !in QuotesDeletedAsWritten(s)
  {
    if s != [] {
      if s[0] == '"' {
        if |s| > 1 {
          assert s[1] != '"';
          assert NoAdjacentQuotes(s[2..]) by {
            forall i | 0 <= i < |s[2..]| - 1 ensures !(s[2..][i] == '"' && s[2..][i + 1] == '"') {
              assert s[2..][i] == s[i + 2] && s[2..][i + 1] == s[i + 3];
            }
          }
          AsWrittenDeletesAllQuotes(s[2..]);
          assert s[1..][1..] == s[2..];
        }
      } else {
        assert NoAdjacentQuotes(s[1..]) by {
          forall i | 0 <= i < |s[1..]| - 1 ensures !(s[1..][i] == '"' && s[1..][i + 1] == '"') {
            assert s[1..][i] == s[i + 1] && s[1..][i + 1] == s[i + 2];
          }
        }
        AsWrittenDeletesAllQuotes(s[1..]);
      }
    }
  }

  /** Two adjacent quotes: the loop as written leaves the second one in the path. */
  lemma AdjacentQuotesSurvive()
    ensures QuotesDeletedAsWritten("\"\"") == "\""
    ensures WithoutQuotes("\"\"") == ""
  {
    assert "\"\""[2..] == [];
    assert "\"\""[1..] == "\"";
    assert "\""[1..] == [];
  }

  /** n terminators. */
  function Nuls(n: nat): (r: string)
    ensures |r| == n && forall i :: 0 <= i < n ==> r[i] == '\0'
  {
    if n == 0 then [] else ['\0'] + Nuls(n - 1)
  }

  /** A buffer after its characters pos+1..length move down one place; b[length] stays. */
  function ShiftedDown(b: seq<char>, pos: nat, length: nat): (r: seq<char>)
    requires pos < length < |b|
    ensures |r| == |b|
    ensures forall i :: pos <= i < length ==> r[i] == b[i + 1]
    ensures forall i :: 0 <= i < |b| && !(pos <= i < length) ==> r[i] == b[i]
  {
    b[..pos] + b[pos + 1..length + 1] + b[length..]
  }

  /** Move path[pos+1..length] down one place (the inner `for` loop); path[length] is kept. */
  method ShiftDown(path: array<char>, pos: nat, length: nat)
    requires pos < length < path.Length
    modifies path
    ensures path[..] == ShiftedDown(old(path[..]), pos, length)
  {
    ghost var before := path[..];
    var index := pos;
    while index < length
      invariant pos <= index <= length
      invariant forall i :: pos <= i < index ==> path[i] == before[i + 1]
      invariant forall i :: 0 <= i < path.Length && !(pos <= i < index) ==> path[i] == before[i]
    {
      path[index] := path[index + 1];
      index := index + 1;
    }
    assert forall i :: 0 <= i < path.Length ==> path[..][i] == ShiftedDown(before, pos, length)[i];
  }

  /**
   * A buffer holding text followed by terminators, with a quote at pos:
   * shifting down, up to any index inside the terminators, drops the quote
   * and adds one terminator.
   */
  lemma ShiftDropsFirst(out: string, rest: string, m: nat, e: nat)
    requires rest != [] && |out| + |rest| <= e < |out| + |rest| + m
    ensures ShiftedDown(out + rest + Nuls(m), |out|, e) == out + rest[1..] + Nuls(m + 1)
  {
    var b := out + rest + Nuls(m);
    var r := ShiftedDown(b, |out|, e);
    var want := out + rest[1..] + Nuls(m + 1);
    forall i | 0 <= i < |b|
      ensures r[i] == want[i]
    {
      if i < |out| {
        assert r[i] == b[i];
      } else if i < |out| + |rest| - 1 {
        assert r[i] == b[i + 1] == rest[i + 1 - |out|];
      } else if i < e {
        assert r[i] == b[i + 1];
      } else {
        assert r[i] == b[i];
      }
    }
  }

  /** The loop as written settles the character after a quote and skips past it. */
  lemma AsWrittenSkip(out: string, rest: string, m: nat)
    requires |rest| >= 2 && rest[0] == '"' && NoNul(out) && NoNul(rest)
    ensures out + QuotesDeletedAsWritten(rest) == (out + [rest[1]]) + QuotesDeletedAsWritten(rest[2..])
    ensures out + rest[1..] + Nuls(m) == (out + [rest[1]]) + rest[2..] + Nuls(m)
    ensures NoNul(out + [rest[1]]) && NoNul(rest[2..])
  {
    AsWrittenSkipsNext(rest);
    Settled(out, rest[1], QuotesDeletedAsWritten(rest[2..]));
    SettledBuffer(out, rest[1..], m);
    SettledNoNul(out, rest[1..]);
  }

  lemma AsWrittenSkipsNext(rest: string)
    requires |rest| >= 2 && rest[0] == '"'
    ensures QuotesDeletedAsWritten(rest) == [rest[1]] + QuotesDeletedAsWritten(rest[2..])
  {
  }

  /** A character that is not a quote is settled as it is, by either loop. */
  lemma Keep(out: string, rest: string, m: nat)
    requires rest != [] && rest[0] != '"' && NoNul(out) && NoNul(rest)
    ensures out + QuotesDeletedAsWritten(rest) == (out + [rest[0]]) + QuotesDeletedAsWritten(rest[1..])
    ensures out + WithoutQuotes(rest) == (out + [rest[0]]) + WithoutQuotes(rest[1..])
    ensures out + rest + Nuls(m) == (out + [rest[0]]) + rest[1..] + Nuls(m)
    ensures NoNul(out + [rest[0]]) && NoNul(rest[1..])
  {
    KeepsFirst(rest);
    Settled(out, rest[0], QuotesDeletedAsWritten(rest[1..]));
    Settled(out, rest[0], WithoutQuotes(rest[1..]));
    SettledBuffer(out, rest, m);
    SettledNoNul(out, rest);
  }

  lemma KeepsFirst(rest: string)
    requires rest != [] && rest[0] != '"'
    ensures QuotesDeletedAsWritten(rest) == [rest[0]] + QuotesDeletedAsWritten(rest[1..])
    ensures WithoutQuotes(rest) == [rest[0]] + WithoutQuotes(rest[1..])
  {
  }

  lemma Settled(out: string, c: char, tail: string)
    ensures out + ([c] + tail) == (out + [c]) + tail
  {
  }

  lemma SettledBuffer(out: string, rest: string, m: nat)
    requires rest != []
    ensures out + rest + Nuls(m) == (out + [rest[0]]) + rest[1..] + Nuls(m)
  {
    assert rest == [rest[0]] + rest[1..];
  }

  lemma SettledNoNul(out: string, rest: string)
    requires rest != [] && NoNul(out) && NoNul(rest)
    ensures NoNul(out + [rest[0]]) && NoNul(rest[1..])
  {
    assert rest[0] in rest;
    NoNulConcat(out, [rest[0]]);
    assert forall c :: c in rest[1..] ==> c in rest;
  }

  /** The corrected loop drops a quote without settling anything. */
  lemma DropQuote(rest: string)
    requires rest != [] && rest[0] == '"' && NoNul(rest)
    ensures WithoutQuotes(rest) == WithoutQuotes(rest[1..]) && NoNul(rest[1..])
  {
  }

  /** A buffer holding text and then terminators is read back as that text. */
  lemma ReadBack(out: string, m: nat)
    requires NoNul(out) && m > 0
    ensures CString(out + Nuls(m), '\0') == out
  {
    var b := out + Nuls(m);
    assert b[..|out|] == out;
    CStringAt(b, '\0', |out|);
  }

  /** The quote-deletion loop as written, on a buffer holding a string and its terminator. */
  method DeleteQuotesAsWritten(path: array<char>, length: nat)
    requires path.Length == length + 1 && path[length] == '\0' && NoNul(path[..length])
    modifies path
    ensures CString(path[..], '\0') == QuotesDeletedAsWritten(old(path[..length]))
  {
    ghost var s := path[..length];
    // The text settled so far, and the part of the original not yet scanned.
    ghost var out: seq<char> := [];
    ghost var rest := s;
    ghost var nuls := 1;
    assert path[..] == out + rest + Nuls(nuls);
    var pos := 0;
    while pos < length
      invariant pos <= length && |out| + |rest| + nuls == length + 1 && nuls > 0
      invariant |out| <= pos && (rest != [] ==> |out| == pos)
      invariant NoNul(out) && NoNul(rest)
      invariant out + QuotesDeletedAsWritten(rest) == QuotesDeletedAsWritten(s)
      invariant path[..] == out + rest + Nuls(nuls)
    {
      assert rest != [] ==> path[pos] == rest[0];
      assert rest == [] ==> path[pos] == '\0';
      if path[pos] == '"' {
        ShiftDown(path, pos, length);
        ShiftDropsFirst(out, rest, nuls, length);
        nuls := nuls + 1;
        if |rest| >= 2 {
          AsWrittenSkip(out, rest, nuls);
          out, rest := out + [rest[1]], rest[2..];
        } else {
          assert QuotesDeletedAsWritten(rest) == [] && rest[1..] == [];
          rest := [];
        }
      } else if rest != [] {
        Keep(out, rest, nuls);
        out, rest := out + [rest[0]], rest[1..];
      }
      pos := pos + 1;
    }
    assert rest == [] && out == QuotesDeletedAsWritten(s);
    assert path[..] == out + Nuls(nuls);
    ReadBack(out, nuls);
  }

  /** Quote deletion that examines the character slid into place: every quote goes. */
  method DeleteQuotes(path: array<char>, length: nat)
    requires path.Length == length + 1 && path[length] == '\0' && NoNul(path[..length])
    modifies path
    ensures CString(path[..], '\0') == WithoutQuotes(old(path[..length]))
  {
    ghost var s := path[..length];
    ghost var out: seq<char> := [];
    ghost var rest := s;
    ghost var nuls := 1;
    assert path[..] == out + rest + Nuls(nuls);
    var end := length;
    var pos := 0;
    while pos < end
      invariant pos <= end <= length && pos + |rest| == end && |out| == pos && end + nuls == length + 1
      invariant NoNul(out) && NoNul(rest)
      invariant out + WithoutQuotes(rest) == WithoutQuotes(s)
      invariant path[..] == out + rest + Nuls(nuls)
      decreases end - pos
    {
      assert path[pos] == rest[0];
      if path[pos] == '"' {
        DropQuote(rest);
        ShiftDown(path, pos, end);
        ShiftDropsFirst(out, rest, nuls, end);
        rest := rest[1..];
        end, nuls := end - 1, nuls + 1;
      } else {
        Keep(out, rest, nuls);
        out, rest := out + [rest[0]], rest[1..];
        pos := pos + 1;
      }
    }
    assert rest == [] && out == WithoutQuotes(s);
    assert path[..] == out + Nuls(nuls);
    ReadBack(out, nuls);
  }

  // -----------------------------------------------------------------------
  // The directory step as written.

  /** `pos = strlen(path) - 1` on the 32-bit size_t of an x86 build. */
  function DirectoryScanStartAsWritten(tokenLength: nat): nat
  {
    (tokenLength - 1) % 0x1_0000_0000
  }

  /**
   * A command line whose token is empty (an empty command line, or one that
   * starts with a space) makes the backward scan as written start at index
   * 0xFFFFFFFF, outside the path buffer of |command| + 1 characters. On an
   * x86 build `path + 0xFFFFFFFF` wraps to `path - 1`, so the scan reads
   * backwards from the byte before the buffer.
   */
  lemma EmptyTokenScanOutOfBuffer(command: string)
    requires TokenEnd(command, 0) == 0 && |command| < 0xFFFF_FFFF
    ensures DirectoryScanStartAsWritten(|Token(command)|) == 0xFFFF_FFFF
    ensures DirectoryScanStartAsWritten(|Token(command)|) >= |command| + 1
    ensures Directory(Token(command)) == "\\"
  {
    assert Token(command) == [];
  }

  /** The empty command line is such a command line. */
  lemma EmptyCommandLineToken()
    ensures TokenEnd("", 0) == 0
    ensures DirectoryScanStartAsWritten(|Token("")|) >= 1
  {
  }

  // -----------------------------------------------------------------------
  // buildsymbolsearchpath.

  /** The first loop: the end of the executable's token in the command line buffer. */
  method ScanToken(path: array<char>, length: nat) returns (pos: nat)
    requires length < path.Length
    ensures pos == TokenEnd(path[..length], 0)
  {
    ghost var s := path[..length];
    var inquote := false;
    pos := 0;
    while pos < length
      invariant pos <= length
      invariant inquote == Quoted(s, pos)
      invariant forall k :: 0 <= k < pos ==> !Separator(s, k)
    {
      if path[pos] == ' ' {
        if !inquote {
          break;
        }
      } else if path[pos] == '"' {
        inquote := !inquote;
      }
      pos := pos + 1;
    }
    assert pos < length ==> Separator(s, pos);
  }

  /**
   * The second loop: cut the token after its last backslash, scanning
   * back from its last character to its second. Position 0 is never
   * examined; without a backslash the path becomes "\". An empty token
   * takes the "\" branch directly instead of starting the scan at
   * strlen(path) - 1.
   */
  method CutAtLastBackslash(path: array<char>, length: nat, n: nat) returns (dir: string)
    requires n <= length < path.Length && path[n] == '\0' && NoNul(path[..n])
    modifies path
    ensures dir == Directory(old(path[..n]))
  {
    ghost var t := path[..n];
    if n == 0 {
      return "\\";
    }
    var pos := n - 1;
    while pos > 0
      invariant pos < n
      invariant path[..] == old(path[..])
      invariant forall k :: pos < k < n ==> t[k] != '\\'
    {
      if path[pos] == '\\' {
        path[pos + 1] := '\0';
        break;
      }
      pos := pos - 1;
    }
    if pos == 0 {
      // strncpy(path, "\\", length): a backslash, then NULs.
      path[0] := '\\';
      var i := 1;
      while i < length
        invariant 1 <= i && (i <= length || length == 0)
        invariant path[0] == '\\'
        invariant forall k :: 1 <= k < i ==> path[k] == '\0'
        invariant forall k :: i <= k < path.Length ==> path[k] == old(path[k])
      {
        path[i] := '\0';
        i := i + 1;
      }
      assert path[1] == '\0';
      assert path[..][..1] == "\\";
      CStringAt(path[..], '\0', 1);
      dir := CString(path[..], '\0');
      assert LastBackslash(t).Some? ==> LastBackslash(t).value == 0;
    } else {
      assert path[..][..pos + 1] == t[..pos + 1];
      CStringAt(path[..], '\0', pos + 1);
      dir := CString(path[..], '\0');
      assert LastBackslash(t) == Some(pos);
    }
  }

  lemma Assoc(a: string, b: string, c: string)
    ensures (a + b) + c == a + (b + c)
  {
  }

  /** The strapp calls of buildsymbolsearchpath, in order. */
  method AppendDirectories(dir: string, env: Environment) returns (path: string)
    requires NoNul(dir) && EnvironmentNoNul(env)
    ensures path == dir + Appended(env)
  {
    path := StrApp(dir, ";.\\");
    ghost var added := ";.\\";
    ghost var before := added;
    if env.systemRoot.Some? {
      var r := env.systemRoot.value;
      path := StrApp(path, ";");
      path := StrApp(path, r);
      path := StrApp(path, ";");
      path := StrApp(path, r);
      path := StrApp(path, "\\system32");
      AppendFive(dir + added, ";", r, ";", r, "\\system32");
      AppendFive(added, ";", r, ";", r, "\\system32");
      added := added + RootPart(env);
      Assoc(dir, before, RootPart(env));
    } else {
      assert added + RootPart(env) == added;
      added := added + RootPart(env);
    }
    before := added;
    if env.ntSymbolPath.Some? {
      path := StrApp(path, ";");
      path := StrApp(path, env.ntSymbolPath.value);
      AppendTwo(dir + added, ";", env.ntSymbolPath.value);
      added := added + SymbolPart(env);
      Assoc(dir, before, SymbolPart(env));
    } else {
      assert added + SymbolPart(env) == added;
      added := added + SymbolPart(env);
    }
    before := added;
    if env.ntAltSymbolPath.Some? {
      path := StrApp(path, ";");
      path := StrApp(path, env.ntAltSymbolPath.value);
      AppendTwo(dir + added, ";", env.ntAltSymbolPath.value);
      added := added + AltPart(env);
      Assoc(dir, before, AltPart(env));
    } else {
      assert added + AltPart(env) == added;
      added := added + AltPart(env);
    }
  }

  /** buildsymbolsearchpath: returns what the source stores in m_symbolpath. */
  method BuildSymbolSearchPath(command: string, env: Environment) returns (symbolPath: string)
    requires NoNul(command) && EnvironmentNoNul(env)
    ensures symbolPath == SymbolSearchPath(command, env)
  {
    var dir := ExecutableDirectory(command);
    DirectoryIsPrefix(Token(command));
    assert NoNul(dir);
    // Append the working directory and the environment's symbol directories.
    var full := AppendDirectories(dir, env);
    AppendedNoNul(env);
    assert NoNul(full);
    symbolPath := QuotesDeleted(full);
  }

  /** The first half of buildsymbolsearchpath: the command line cut down to the executable's directory. */
  method ExecutableDirectory(command: string) returns (dir: string)
    requires NoNul(command)
    ensures dir == Directory(Token(command))
  {
    var length := |command|;
    var path := new char[length + 1](_ => '\0');
    // strncpy(path, command, length)
    forall i | 0 <= i < length {
      path[i] := command[i];
    }
    assert path[..length] == command;

    // Filter out the command line arguments.
    var pos := ScanToken(path, length);
    path[pos] := '\0';
    assert path[..pos] == Token(command);

    // Remove the executable file name to get just the path.
    dir := CutAtLastBackslash(path, length, pos);
  }

  /** The last step of buildsymbolsearchpath: the quotes deleted in the buffer strapp left, the text and its terminator. */
  method QuotesDeleted(full: string) returns (path: string)
    requires NoNul(full)
    ensures path == WithoutQuotes(full)
  {
    var buffer := new char[|full| + 1](i requires 0 <= i <= |full| => if i < |full| then full[i] else '\0');
    assert buffer[..|full|] == full;
    DeleteQuotes(buffer, |full|);
    path := CString(buffer[..], '\0');
  }
}
