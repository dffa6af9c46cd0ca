/**
 * `GetExecutablePath`, present in both the engine (code-core/Main.cpp) and
 * the DirectX 12 sample (api-directx12/Main.cpp): the directory of the
 * running executable, found by cutting the module file name at its last
 * '\\' or '/'. The two copies differ only in a guard for "no separator";
 * the model shows that the guard changes nothing.
 */
module ExecutablePath {
  /** `std::wstring::npos`: the largest `size_t`. */
  const NPOS: nat := 0xFFFF_FFFF_FFFF_FFFF

  /** `MAX_PATH`: the size of the buffer `GetModuleFileNameW` fills, NUL included. */
  const MAX_PATH: nat := 260

  /** The separators `find_last_of(L"\\/")` looks for. */
  const SEPARATORS: set<char> := {'\\', '/'}

  /** A `std::wstring` is shorter than `npos`. */
  type WString = s: string | |s| < NPOS

  /**
   * The buffer `GetModuleFileNameW(NULL, buffer, MAX_PATH)` leaves behind
   * for a module file name: truncated to `MAX_PATH - 1` characters and
   * NUL-terminated, so `std::wstring(buffer)` is that prefix.
   */
  function ModuleBuffer(moduleFileName: string): (b: WString)
    ensures |b| < MAX_PATH && b <= moduleFileName
    ensures |moduleFileName| < MAX_PATH ==> b == moduleFileName
  {
    if |moduleFileName| < MAX_PATH then moduleFileName else moduleFileName[..MAX_PATH - 1]
  }

  /** `find_last_of`: the last position holding one of `chars`, `npos` when there is none. */
  function FindLastOf(s: WString, chars: set<char>): (pos: nat)
    ensures pos == NPOS <==> forall k :: 0 <= k < |s| ==> s[k] !in chars
    ensures pos != NPOS ==> pos < |s| && s[pos] in chars && forall k :: pos < k < |s| ==> s[k] !in chars
  {
    if s == [] then NPOS
    else if s[|s| - 1] in chars then |s| - 1
    else FindLastOf(s[..|s| - 1], chars)
  }

  /** `substr(pos, count)`: at most `count` characters from `pos`, fewer at the end of the string. */
  function Substr(s: WString, pos: nat, count: nat): (r: WString)
    requires pos <= |s|
    ensures |r| == if count < |s| - pos then count else |s| - pos
    ensures forall k :: 0 <= k < |r| ==> r[k] == s[pos + k]
  {
    if count < |s| - pos then s[pos..pos + count] else s[pos..]
  }

  /** code-core/Main.cpp: the whole buffer without a separator, else the part before the last one. */
  function GetExecutablePathGuarded(buffer: WString): (dir: WString)
    ensures dir <= buffer
    ensures FindLastOf(buffer, SEPARATORS) == NPOS ==> dir == buffer
  {
    var pos := FindLastOf(buffer, SEPARATORS);
    if pos == NPOS then buffer else Substr(buffer, 0, pos)
  }

  /** api-directx12/Main.cpp: `substr(0, pos)` with no guard for `npos`. */
  function GetExecutablePath(buffer: WString): (dir: WString)
    ensures dir <= buffer
  {
    Substr(buffer, 0, FindLastOf(buffer, SEPARATORS))
  }

  /**
   * Without a separator the unguarded copy returns the whole string,
   * because `substr(0, npos)` stops at the end of the string; so the two
   * copies agree on every buffer and the guard is redundant.
   */
  lemma GuardRedundant(buffer: WString)
    ensures GetExecutablePath(buffer) == GetExecutablePathGuarded(buffer)
  {
    if FindLastOf(buffer, SEPARATORS) == NPOS {
      assert GetExecutablePath(buffer) == buffer[0..];
    }
  }

  /**
   * The directory and the file name put back together give the buffer: the
   * result is everything before the last separator, which is followed by
   * a file name holding no separator; with no separator the result is the
   * whole buffer.
   */
  lemma DirectorySplitsPath(buffer: WString)
    ensures var dir := GetExecutablePath(buffer);
      && (|dir| == |buffer| <==> forall k :: 0 <= k < |buffer| ==> buffer[k] !in SEPARATORS)
      && (|dir| < |buffer| ==>
            && buffer[|dir|] in SEPARATORS
            && buffer == dir + [buffer[|dir|]] + buffer[|dir| + 1..]
            && forall k :: |dir| < k < |buffer| ==> buffer[k] !in SEPARATORS)
  {
    var dir := GetExecutablePath(buffer);
    var pos := FindLastOf(buffer, SEPARATORS);
    if pos != NPOS {
      assert |dir| == pos;
      assert buffer == buffer[..pos] + [buffer[pos]] + buffer[pos + 1..];
      assert dir == buffer[..pos];
    }
  }
}
