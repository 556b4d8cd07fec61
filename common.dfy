/** Shared vocabulary: optional values, bytes and NUL-terminated character buffers. */
module Common {

  datatype Option<T> = None | Some(value: T)

  /** An unsigned 8-bit value (the C `unsigned char` / Win32 `BYTE`). */
  newtype byte = x: int | 0 <= x < 0x100

  /** An unsigned 16-bit value (the Win32 `WORD` and `WCHAR`). */
  newtype wchar = x: int | 0 <= x < 0x1_0000

  /**
   * The text a C character buffer holds: everything before its first
   * terminator `nul` (what `strlen`, `wcslen`, `%s` and `OutputDebugString`
   * see). Without a terminator the whole buffer is taken.
   */
  function CString<T(==)>(s: seq<T>, nul: T): (r: seq<T>)
    ensures r <= s
    ensures nul !in r
    ensures |r| < |s| ==> s[|r|] == nul
  {
    if s == [] then []
    else if s[0] == nul then []
    else [s[0]] + CString(s[1..], nul)
  }

  /** A buffer whose first terminator is at index n holds exactly its first n characters. */
  lemma {:induction false} CStringAt<T>(s: seq<T>, nul: T, n: nat)
    requires n < |s| && s[n] == nul
    requires nul !in s[..n]
    ensures CString(s, nul) == s[..n]
  {
    if n > 0 {
      assert s[0] in s[..n];
      assert s[1..][..n - 1] == s[1..n];
      assert forall c :: c in s[1..n] ==> c in s[..n];
      CStringAt(s[1..], nul, n - 1);
    }
  }
}
