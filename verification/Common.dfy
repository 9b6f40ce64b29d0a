/** Vocabulary shared by the components of the mesh model. */
module Common {

  datatype Option<+T> = None | Some(value: T)

  function Max(a: int, b: int): int { if a >= b then a else b }

  function Min(a: int, b: int): int { if a <= b then a else b }

  function MaxR(a: real, b: real): real { if a >= b then a else b }

  function MinR(a: real, b: real): real { if a <= b then a else b }

  function Pow2(n: nat): (p: nat)
    ensures p >= 1
  {
    if n == 0 then 1 else 2 * Pow2(n - 1)
  }

  /** What Python's `\s` and `lstrip` take for whitespace. */
  predicate IsSpace(c: char) {
    || '\t' <= c <= '\r'
    || '\U{1C}' <= c <= ' '
    || c in {'\U{85}', '\U{A0}', '\U{1680}', '\U{2028}', '\U{2029}', '\U{202F}', '\U{205F}', '\U{3000}'}
    || '\U{2000}' <= c <= '\U{200A}'
  }

  predicate IsAsciiLetter(c: char) {
    'a' <= c <= 'z' || 'A' <= c <= 'Z'
  }

  predicate IsDigit(c: char) {
    '0' <= c <= '9'
  }

  /** The alphabet of ids, refs, thread names and session selectors on the wire. */
  predicate IsTokenChar(c: char) {
    IsAsciiLetter(c) || IsDigit(c) || c in {'_', '.', ':', '-'}
  }

  predicate ValidToken(s: string) {
    1 <= |s| <= 128 && forall c | c in s :: IsTokenChar(c)
  }

  /** How the shared file behaved during one locked operation. The file lock makes the
      operation atomic and a write is all-or-nothing, so three flags say everything. */
  datatype FileIO = FileIO(lockOk: bool, readOk: bool, writeOk: bool)

  const HEALTHY := FileIO(true, true, true)

  lemma Regroup<T>(a: seq<T>, b: seq<T>, c: seq<T>)
    ensures (a + b) + c == a + (b + c)
  {
  }

  lemma HeadOfConcat<T>(s: seq<T>, u: seq<T>)
    requires s != []
    ensures s + u != [] && (s + u)[0] == s[0] && (s + u)[1..] == s[1..] + u
  {
  }
}
