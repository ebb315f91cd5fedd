/**
 * The handful of Python string operations the engine relies on (`str.strip`, `str.split`,
 * `in`, `str.count`, `str.lower`, `", ".join`, slicing), written out over `seq<char>`.
 */
module Text {
  import opened Base

  /** Python's `str.isspace()`, which is also what the regex class `\s` and `str.strip()` use. */
  predicate IsSpace(c: char) { IsSpaceCode(c as int) }

  /** The same set by code point, split at the ASCII range. */
  predicate IsSpaceCode(n: int) {
    if n < 0x80 then
      n == 0x20 || 0x09 <= n <= 0x0D || 0x1C <= n <= 0x1F
    else
      n == 0x85 || n == 0xA0 || n == 0x1680 || 0x2000 <= n <= 0x200A || n == 0x2028 || n == 0x2029
      || n == 0x202F || n == 0x205F || n == 0x3000
  }

  predicate IsAsciiLetter(c: char) { ('a' <= c <= 'z') || ('A' <= c <= 'Z') }

  predicate IsDigit(c: char) { '0' <= c <= '9' }

  /** The regex class `\w`, restricted to ASCII. */
  predicate IsWordChar(c: char) { IsAsciiLetter(c) || IsDigit(c) || c == '_' }

  predicate AllSpace(s: string) { forall k | 0 <= k < |s| :: IsSpace(s[k]) }

  /** The first index at or after `i` that does not hold whitespace (`\s*`, greedy). */
  function SkipSpace(s: string, i: nat): (j: nat)
    requires i <= |s|
    decreases |s| - i
    ensures i <= j <= |s| && (j < |s| ==> !IsSpace(s[j]))
  {
    if i < |s| && IsSpace(s[i]) then SkipSpace(s, i + 1) else i
  }

  /** Everything `SkipSpace` steps over is whitespace. */
  lemma {:induction false} SkipSpaceAll(s: string, i: nat)
    requires i <= |s|
    ensures forall k | i <= k < SkipSpace(s, i) :: IsSpace(s[k])
    decreases |s| - i
  {
    if i < |s| && IsSpace(s[i]) {
      SkipSpaceAll(s, i + 1);
    }
  }

  /** The least index `k`, not below `lo`, from which `s[k..j]` is all whitespace. */
  function SpaceBefore(s: string, j: nat, lo: nat): (k: nat)
    requires lo <= j <= |s|
    decreases j - lo
    ensures lo <= k <= j && (k > lo ==> !IsSpace(s[k - 1]))
    ensures forall m | k <= m < j :: IsSpace(s[m])
  {
    if j > lo && IsSpace(s[j - 1]) then SpaceBefore(s, j - 1, lo) else j
  }

  /** Where the stripped text starts in the original. */
  function StripStart(s: string): nat {
    SkipSpace(s, 0)
  }

  /** `s.strip()`: the text between the leading and the trailing whitespace. */
  function Strip(s: string): (r: string)
    ensures |r| <= |s|
    ensures r == [] || (!IsSpace(r[0]) && !IsSpace(r[|r| - 1]))
    ensures r == [] <==> AllSpace(s)
  {
    var a := StripStart(s);
    SkipSpaceAll(s, 0);
    s[a..SpaceBefore(s, |s|, a)]
  }

  /** The stripped text is a piece of the original with only whitespace around it. */
  lemma StripSlice(s: string)
    ensures var i, r := StripStart(s), Strip(s);
      i + |r| <= |s| && s[i..i + |r|] == r
      && (forall k | 0 <= k < i :: IsSpace(s[k])) && (forall k | i + |r| <= k < |s| :: IsSpace(s[k]))
  {
    SkipSpaceAll(s, 0);
  }

  /** `s.startswith(p)`. */
  predicate StartsWith(s: string, p: string) { |p| <= |s| && s[..|p|] == p }

  /** `pat` occurs in `s` at index `i`. */
  predicate At(s: string, i: nat, pat: string) { i + |pat| <= |s| && s[i..i + |pat|] == pat }

  /** `s.find(pat, from)`: the first index at or after `from` where `pat` occurs. */
  function Find(s: string, pat: string, from: nat): (r: Option<nat>)
    decreases |s| + 1 - from
    ensures r.Some? ==> from <= r.value && At(s, r.value, pat)
    ensures forall i | from <= i && (r.None? || i < r.value) :: !At(s, i, pat)
  {
    if from + |pat| > |s| then None
    else if At(s, from, pat) then Some(from)
    else Find(s, pat, from + 1)
  }

  /** Python's `pat in s`. */
  predicate Contains(s: string, pat: string) { Find(s, pat, 0).Some? }

  lemma ContainsIff(s: string, pat: string)
    ensures Contains(s, pat) <==> exists i :: At(s, i, pat)
  {
    if !Contains(s, pat) {
      forall i: nat ensures !At(s, i, pat) { }
    }
  }

  /** `sep.join(parts)`. */
  function Join(sep: string, parts: seq<string>): (r: string)
  {
    if |parts| == 0 then "" else if |parts| == 1 then parts[0] else parts[0] + sep + Join(sep, parts[1..])
  }

  /** `s.split(c)` for a one-character separator: `|s.split(c)|` is one more than the number of `c`. */
  function Split(s: string, c: char): (r: seq<string>)
    ensures |r| >= 1
    ensures forall k | 0 <= k < |r| :: c !in r[k]
  {
    match Find(s, [c], 0)
    case None =>
      assert forall i | 0 <= i < |s| :: s[i] != c by {
        forall i | 0 <= i < |s| ensures s[i] != c { assert !At(s, i, [c]); }
      }
      [s]
    case Some(k) =>
      assert forall i | 0 <= i < k :: s[i] != c by {
        forall i | 0 <= i < k ensures s[i] != c { assert !At(s, i, [c]); }
      }
      [s[..k]] + Split(s[k + 1..], c)
  }

  /** Joining the pieces of a split with the separator gives back the original text. */
  lemma {:induction false} JoinSplit(s: string, c: char)
    ensures Join([c], Split(s, c)) == s
    decreases |s|
  {
    match Find(s, [c], 0)
    case None =>
    case Some(k) =>
      var rest := Split(s[k + 1..], c);
      JoinSplit(s[k + 1..], c);
      assert s[k..k + 1] == [c];
      assert s == s[..k] + [c] + s[k + 1..];
  }

  function LowerChar(c: char): char {
    if 'A' <= c <= 'Z' then (c as int - 'A' as int + 'a' as int) as char else c
  }

  /** `s.lower()`, over ASCII letters. */
  function Lower(s: string): (r: string)
    ensures |r| == |s| && forall i | 0 <= i < |s| :: r[i] == LowerChar(s[i])
  {
    seq(|s|, i requires 0 <= i < |s| => LowerChar(s[i]))
  }

  /** The lower-case word `w` occurs at `i` in `s` when ASCII letter case is ignored
      (a literal of a pattern compiled with `re.IGNORECASE`). */
  predicate AtIgnoreCase(s: string, i: nat, w: string) {
    i + |w| <= |s| && forall k | 0 <= k < |w| :: LowerChar(s[i + k]) == w[k]
  }

  /** `s[:n]` for a non-negative `n`. */
  function Take(s: string, n: nat): (r: string)
    ensures |r| <= n && StartsWith(s, r)
    ensures |s| <= n ==> r == s
  {
    if |s| <= n then s else s[..n]
  }

  /** `s.count(pat)`: the number of non-overlapping occurrences, scanning from the left. */
  function Count(s: string, pat: string): (r: nat)
  {
    if pat == [] then |s| + 1 else CountFrom(s, pat, 0)
  }

  function CountFrom(s: string, pat: string, i: nat): (n: nat)
    requires pat != []
    decreases |s| + 1 - i
    ensures n > 0 ==> exists j :: i <= j && At(s, j, pat)
  {
    if i + |pat| > |s| then 0
    else if At(s, i, pat) then 1 + CountFrom(s, pat, i + |pat|)
    else CountFrom(s, pat, i + 1)
  }

  /** A string with no occurrence of `pat` has count zero. */
  lemma {:induction false} CountAbsent(s: string, pat: string, i: nat)
    requires pat != []
    requires forall j | i <= j :: !At(s, j, pat)
    ensures CountFrom(s, pat, i) == 0
    decreases |s| + 1 - i
  {
    if i + |pat| <= |s| {
      CountAbsent(s, pat, i + 1);
    }
  }

  /** Python's `xs[:k]`, where a negative `k` counts from the end. */
  function PySliceTo<T>(xs: seq<T>, k: int): (r: seq<T>)
    ensures |r| <= |xs| && r == xs[..|r|]
    ensures k >= 0 ==> |r| == if k <= |xs| then k else |xs|
    ensures k < 0 ==> |r| == if |xs| + k >= 0 then |xs| + k else 0
  {
    if k >= 0 then (if k <= |xs| then xs[..k] else xs)
    else if |xs| + k >= 0 then xs[..|xs| + k] else []
  }
}
