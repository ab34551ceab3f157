/**
 * Vocabulary shared by the drive and photo synchronisers: optional values,
 * absolute paths as lists of components, and the small string operations the
 * synchronisers perform on names and paths (ASCII case folding, suffix tests,
 * splitting on '/', decimal rendering of integers).
 */
module Common {

  datatype Option<T> = None | Some(value: T)

  /** Nanoseconds in a second: local and remote times are kept in nanoseconds since the epoch. */
  const NanosPerSecond: int := 1_000_000_000

  /** An absolute local path as its components: "/dest/Docs" is ["dest", "Docs"], "/" is []. */
  type Path = seq<string>

  /** `a` is one of `b`'s parents (pathlib's `a in b.parents`). */
  predicate IsStrictPrefix(a: Path, b: Path)
  {
    |a| < |b| && a == b[..|a|]
  }

  /** `a` is `b` or one of its parents. */
  predicate IsPrefix(a: Path, b: Path)
  {
    |a| <= |b| && a == b[..|a|]
  }

  /** `p` lies strictly inside directory `d`: what `Path(d).rglob("*")` can yield. */
  predicate Below(d: Path, p: Path)
  {
    IsStrictPrefix(d, p)
  }

  /** The directory that contains `p` (the root for a top-level entry). */
  function Parent(p: Path): (q: Path)
    requires p != []
    ensures IsStrictPrefix(q, p) && |q| + 1 == |p|
  {
    p[..|p| - 1]
  }

  /** The path as the string `os.path.join` builds: "/" for the root, "/a/b" for ["a", "b"]. */
  function PathString(p: Path): (s: string)
    ensures |s| > 0 && s[0] == '/'
    ensures p != [] ==> EndsWith(s, "/" + p[|p| - 1])
  {
    if p == [] then "/" else JoinedComponents(p)
  }

  /** Each component preceded by a separator. */
  function JoinedComponents(p: Path): (s: string)
    ensures p != [] ==> |s| > 0 && s[0] == '/'
    ensures p != [] ==> EndsWith(s, "/" + p[|p| - 1])
  {
    if p == [] then ""
    else
      var front := JoinedComponents(p[..|p| - 1]);
      var s := front + "/" + p[|p| - 1];
      assert s[|s| - |"/" + p[|p| - 1]|..] == "/" + p[|p| - 1];
      s
  }

  // ---------------------------------------------------------------------
  // Text
  // ---------------------------------------------------------------------

  /** ASCII lower-casing of one character. */
  function LowerChar(c: char): (r: char)
    ensures 'A' <= c <= 'Z' ==> r as int == c as int + 32
    ensures !('A' <= c <= 'Z') ==> r == c
    ensures !('A' <= r <= 'Z')
  {
    if 'A' <= c <= 'Z' then (c as int + 32) as char else c
  }

  function Lower(s: string): (r: string)
    ensures |r| == |s|
    ensures forall i :: 0 <= i < |s| ==> r[i] == LowerChar(s[i])
  {
    seq(|s|, i requires 0 <= i < |s| => LowerChar(s[i]))
  }

  predicate EndsWith(s: string, suffix: string)
  {
    |suffix| <= |s| && s[|s| - |suffix|..] == suffix
  }

  /** Case-insensitive suffix test: `s.lower().endswith(suffix.lower())`. */
  predicate EndsWithIgnoreCase(s: string, suffix: string)
  {
    EndsWith(Lower(s), Lower(suffix))
  }

  /** `s.removeprefix(x)` for a one-character prefix. */
  function RemovePrefixChar(s: string, x: char): (r: string)
    ensures (|s| > 0 && s[0] == x) ==> s == [x] + r
    ensures !(|s| > 0 && s[0] == x) ==> r == s
  {
    if |s| > 0 && s[0] == x then s[1..] else s
  }

  /** `s.removesuffix(x)` for a one-character suffix. */
  function RemoveSuffixChar(s: string, x: char): (r: string)
    ensures (|s| > 0 && s[|s| - 1] == x) ==> s == r + [x]
    ensures !(|s| > 0 && s[|s| - 1] == x) ==> r == s
  {
    if |s| > 0 && s[|s| - 1] == x then s[..|s| - 1] else s
  }

  /** Index of the first occurrence of `c` in `s`, or `|s|` when there is none. */
  function IndexOf(s: string, c: char): (i: nat)
    ensures i <= |s|
    ensures forall j :: 0 <= j < i ==> s[j] != c
    ensures i < |s| ==> s[i] == c
  {
    if |s| == 0 then 0
    else if s[0] == c then 0
    else 1 + IndexOf(s[1..], c)
  }

  /** Index of the last occurrence of `c` in `s`, if any. */
  function LastIndexOf(s: string, c: char): (r: Option<nat>)
    ensures r.None? ==> c !in s
    ensures r.Some? ==> r.value < |s| && s[r.value] == c
    ensures r.Some? ==> c !in s[r.value + 1..]
  {
    if |s| == 0 then None
    else if s[|s| - 1] == c then Some(|s| - 1)
    else
      var r := LastIndexOf(s[..|s| - 1], c);
      assert s[..|s| - 1] + [s[|s| - 1]] == s;
      if r.Some? then
        assert s[r.value + 1..] == s[..|s| - 1][r.value + 1..] + [s[|s| - 1]];
        r
      else r
  }

  /** A component pathlib keeps: not empty and not ".", and without a separator. */
  predicate IsComponent(c: string)
  {
    c != "" && c != "." && '/' !in c
  }

  /**
   * The components pathlib makes of a relative path string: split at '/',
   * dropping the empty pieces of repeated separators and "." pieces.
   */
  function Components(s: string): (cs: Path)
    ensures forall c :: c in cs ==> IsComponent(c)
    decreases |s|
  {
    var i := IndexOf(s, '/');
    var head := s[..i];
    var first: Path := if head == "" || head == "." then [] else [head];
    assert '/' !in head;
    if i < |s| then first + Components(s[i + 1..]) else first
  }

  /** A single component is split into itself. */
  lemma ComponentsOfName(s: string)
    requires IsComponent(s)
    ensures Components(s) == [s]
  {
    assert IndexOf(s, '/') == |s|;
    assert s[..|s|] == s;
  }

  // ---------------------------------------------------------------------
  // Decimal numbers (Python's `str(n)` for a non-negative int)
  // ---------------------------------------------------------------------

  predicate IsDigit(c: char)
  {
    '0' <= c <= '9'
  }

  function DigitChar(d: nat): (c: char)
    requires d < 10
    ensures IsDigit(c) && (c as int) - ('0' as int) == d
  {
    ('0' as int + d) as char
  }

  function DecimalString(n: nat): (s: string)
    ensures |s| > 0
    ensures forall i :: 0 <= i < |s| ==> IsDigit(s[i])
    ensures |s| > 1 ==> s[0] != '0'
  {
    if n < 10 then [DigitChar(n)]
    else DecimalString(n / 10) + [DigitChar(n % 10)]
  }

  /** The value of a string of decimal digits: the partner of DecimalString. */
  function DecimalValue(s: string): nat
    requires forall i :: 0 <= i < |s| ==> IsDigit(s[i])
  {
    if |s| == 0 then 0
    else
      assert IsDigit(s[|s| - 1]);
      10 * DecimalValue(s[..|s| - 1]) + ((s[|s| - 1] as int) - ('0' as int))
  }

  /** Rendering a number in decimal and reading it back gives the number. */
  lemma {:induction false} DecimalRoundTrip(n: nat)
    ensures DecimalValue(DecimalString(n)) == n
  {
    if n >= 10 {
      var s := DecimalString(n);
      assert s[..|s| - 1] == DecimalString(n / 10);
      DecimalRoundTrip(n / 10);
    }
  }

  /** Distinct numbers give distinct directory names. */
  lemma DecimalStringInjective(m: nat, n: nat)
    requires DecimalString(m) == DecimalString(n)
    ensures m == n
  {
    DecimalRoundTrip(m);
    DecimalRoundTrip(n);
  }
}
