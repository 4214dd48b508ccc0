/** The few pieces of Java's integer and string semantics the core relies on:
    truncating `long` division by 1000, the narrowing `(int)` cast, `String.trim`,
    `String.startsWith`/`substring` and `String.replace` with an empty replacement. */
module JavaLang {

  const IntMin: int := -0x8000_0000
  const IntMax: int := 0x7fff_ffff
  const TwoTo32: int := 0x1_0000_0000

  /** Java's `a / 1000` on a `long`: the quotient is truncated toward zero (Dafny's
      `/` is Euclidean and rounds down for negative `a`). */
  function TruncDiv1000(a: int): (q: int)
    ensures 0 <= a ==> 0 <= q * 1000 <= a < q * 1000 + 1000
    ensures a < 0 ==> q * 1000 - 1000 < a <= q * 1000 <= 0
  {
    if a >= 0 then a / 1000 else -((-a) / 1000)
  }

  /** The narrowing cast `(int) x` of a `long`: keeps the low 32 bits, two's complement. */
  function NarrowToInt(x: int): (r: int)
    ensures IntMin <= r <= IntMax
    ensures (x - r) % TwoTo32 == 0
    ensures IntMin <= x <= IntMax ==> r == x
  {
    var m := x % TwoTo32;
    if m > IntMax then m - TwoTo32 else m
  }

  /** `s.startsWith(prefix)`. */
  predicate StartsWith(s: string, prefix: string) {
    |prefix| <= |s| && s[..|prefix|] == prefix
  }

  /** `s.replace(target, "")`: every occurrence of `target`, scanned left to right
      without overlaps, is removed. */
  function RemoveAll(s: string, target: string): (r: string)
    requires target != ""
    ensures |r| <= |s|
    decreases |s|
  {
    if StartsWith(s, target) then RemoveAll(s[|target|..], target)
    else if s == [] then []
    else [s[0]] + RemoveAll(s[1..], target)
  }

  /** Removing `target` from a string that lacks one of `target`'s characters
      changes nothing. */
  lemma {:induction false} RemoveAllWithoutOccurrence(s: string, target: string, c: char)
    requires target != "" && c in target && c !in s
    ensures RemoveAll(s, target) == s
    decreases |s|
  {
    if StartsWith(s, target) {
      assert false;
    } else if s != [] {
      assert c !in s[1..] by {
        forall i | 0 <= i < |s[1..]| ensures s[1..][i] != c { assert s[1..][i] == s[i + 1]; }
      }
      RemoveAllWithoutOccurrence(s[1..], target, c);
      assert [s[0]] + s[1..] == s;
    }
  }

  /** A leading occurrence of `target` is removed and the scan resumes after it. */
  lemma RemoveAllLeading(target: string, s: string)
    requires target != ""
    ensures RemoveAll(target + s, target) == RemoveAll(s, target)
  {
    assert (target + s)[..|target|] == target;
    assert (target + s)[|target|..] == s;
  }

  /** A character `String.trim` removes: every code point up to and including the space. */
  predicate IsTrimmed(c: char) {
    c <= ' '
  }

  function TrimStart(s: string): (r: string)
    ensures |r| <= |s| && r == s[|s| - |r|..]
    ensures r == [] <==> forall i :: 0 <= i < |s| ==> IsTrimmed(s[i])
    ensures r != [] ==> !IsTrimmed(r[0])
    decreases |s|
  {
    if s != [] && IsTrimmed(s[0]) then TrimStart(s[1..]) else s
  }

  function TrimEnd(s: string): (r: string)
    ensures |r| <= |s| && r == s[..|r|]
    ensures r == [] <==> forall i :: 0 <= i < |s| ==> IsTrimmed(s[i])
    ensures r != [] ==> !IsTrimmed(r[|r| - 1])
    decreases |s|
  {
    if s != [] && IsTrimmed(s[|s| - 1]) then TrimEnd(s[..|s| - 1]) else s
  }

  /** `s.trim()`: drops leading and trailing characters up to the space. */
  function Trim(s: string): (r: string)
    ensures r == [] <==> forall i :: 0 <= i < |s| ==> IsTrimmed(s[i])
    ensures r != [] ==> !IsTrimmed(r[0]) && !IsTrimmed(r[|r| - 1])
    ensures |r| <= |s|
  {
    TrimEnd(TrimStart(s))
  }
}
