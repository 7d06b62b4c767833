/** The few pieces of Python semantics the modelled code leans on: optional
    values, the exceptions it raises, and the `str` methods it calls. */
module Python {

  datatype Option<T> = None | Some(value: T)

  /** The exception classes raised by the modelled code. */
  datatype Exception = ValueError | AssertionError | AttributeError | IndexError | TypeError

  /** A computation that either returns a value or raises. */
  datatype Result<T> = Ok(value: T) | Err(error: Exception)

  /** `c.isspace()`; it is also what the class `\s` of the `re` module matches
      in a `str` pattern. */
  predicate IsSpace(c: char) {
    ('\t' <= c <= '\r') || ('\U{1C}' <= c <= '\U{1F}') || c == ' ' ||
    c == '\U{85}' || c == '\U{A0}' || c == '\U{1680}' ||
    ('\U{2000}' <= c <= '\U{200A}') || c == '\U{2028}' || c == '\U{2029}' ||
    c == '\U{202F}' || c == '\U{205F}' || c == '\U{3000}'
  }

  predicate AllSpace(s: string) {
    forall i :: 0 <= i < |s| ==> IsSpace(s[i])
  }

  predicate IsPrefix<T(==)>(p: seq<T>, s: seq<T>) {
    |p| <= |s| && s[..|p|] == p
  }

  /** `s.startswith(p)` */
  predicate StartsWith(s: string, p: string) {
    IsPrefix(p, s)
  }

  /** The number of whitespace characters `s` starts with. */
  function LeadingSpace(s: string): (n: nat)
    ensures n <= |s| && AllSpace(s[..n])
    ensures n == |s| || !IsSpace(s[n])
  {
    if s != [] && IsSpace(s[0]) then
      var n := LeadingSpace(s[1..]);
      assert forall i :: 0 <= i < n ==> s[1..][..n][i] == s[..n + 1][i + 1];
      n + 1
    else 0
  }

  /** `s.lstrip()`: the longest suffix of `s` that does not start with whitespace. */
  function LStrip(s: string): (r: string)
    ensures |r| <= |s| && r == s[|s| - |r|..]
    ensures AllSpace(s[..|s| - |r|])
    ensures r == [] || !IsSpace(r[0])
  {
    s[LeadingSpace(s)..]
  }

  /** `s[:n]` for a possibly negative `n`. */
  function Prefix<T>(s: seq<T>, n: int): seq<T> {
    if n >= 0 then s[..if n <= |s| then n else |s|]
    else s[..if |s| + n >= 0 then |s| + n else 0]
  }

  predicate OccursAt(s: string, pat: string, i: int) {
    0 <= i && i + |pat| <= |s| && s[i..i + |pat|] == pat
  }

  /** `pat in s` */
  predicate Contains(s: string, pat: string) {
    exists i | 0 <= i <= |s| - |pat| :: OccursAt(s, pat, i)
  }

  /** `s.rfind(pat)`: the highest index where `pat` occurs, or -1. */
  function RFind(s: string, pat: string): (r: int)
    ensures r == -1 || 0 <= r <= |s| - |pat|
    ensures r >= 0 ==> OccursAt(s, pat, r)
    ensures forall j :: r < j ==> !OccursAt(s, pat, j)
  {
    RFindAtOrBelow(s, pat, |s| - |pat|)
  }

  /** The highest index `<= i` where `pat` occurs, or -1. */
  function RFindAtOrBelow(s: string, pat: string, i: int): (r: int)
    requires i <= |s| - |pat|
    ensures r == -1 || 0 <= r <= i
    ensures r >= 0 ==> OccursAt(s, pat, r)
    ensures forall j :: r < j <= i ==> !OccursAt(s, pat, j)
    decreases i + 1
  {
    if i < 0 then -1
    else if s[i..i + |pat|] == pat then i
    else RFindAtOrBelow(s, pat, i - 1)
  }

  /** `s.replace(a, b)` for one-character `a` and `b`. */
  function ReplaceChar(s: string, a: char, b: char): (r: string)
    ensures |r| == |s|
    ensures forall i :: 0 <= i < |s| ==> r[i] == if s[i] == a then b else s[i]
  {
    if s == [] then [] else [if s[0] == a then b else s[0]] + ReplaceChar(s[1..], a, b)
  }
}
