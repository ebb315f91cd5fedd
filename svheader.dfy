/**
 * Recognising a SystemVerilog module header and a fenced code block in a reply.
 *
 * `MatchHeader` is the anchored, case-insensitive, dot-matches-newline pattern
 * `^\s*module\s+[A-Za-z_]\w*\s*(?:#\s*\(.*?\))?\s*\(.*?\)\s*;`, which appears three times in the
 * source (the header helpers of the driver and of the module generator, and the seed importer's
 * header parser). Each `\s*` is consumed one character at a time, and each lazy `.*?` is written
 * out as "the least index such that the rest of the pattern matches", which is what the regex
 * engine's backtracking computes.
 */
module SvHeader {
  import opened Base
  import opened Text

  /** Index positions of one header match: the identifier, the text inside the port
      parentheses, and the end of the whole match (just after the `;`). */
  datatype HeaderMatch = HeaderMatch(nameStart: nat, nameEnd: nat, portsStart: nat, portsEnd: nat, end: nat)

  /** The first index at or after `i` that does not hold a word character (`\w*`, greedy). */
  function WordEnd(s: string, i: nat): (j: nat)
    requires i <= |s|
    decreases |s| - i
    ensures i <= j <= |s| && (j < |s| ==> !IsWordChar(s[j]))
  {
    if i < |s| && IsWordChar(s[i]) then WordEnd(s, i + 1) else i
  }

  /** `\s*;` from `j`: the index just after the `;`. */
  function SemicolonEnd(s: string, j: nat): (r: Option<nat>)
    requires j <= |s|
    decreases |s| - j
    ensures r.Some? ==> j < r.value <= |s| && s[r.value - 1] == ';'
  {
    if j < |s| && IsSpace(s[j]) then SemicolonEnd(s, j + 1)
    else if j < |s| && s[j] == ';' then Some(j + 1)
    else None
  }

  /** `)` at `k` followed by `\s*;`: where the lazy port list `\(.*?\)\s*;` can stop. */
  predicate ClosesPorts(s: string, k: nat)
    requires k < |s|
  {
    s[k] == ')' && SemicolonEnd(s, k + 1).Some?
  }

  /** The lazy `.*?` of the port list: the least `k >= i` that closes it. */
  function PortsClose(s: string, i: nat): (r: Option<nat>)
    requires i <= |s|
    decreases |s| - i
    ensures r.Some? ==> i <= r.value < |s| && ClosesPorts(s, r.value)
  {
    if i == |s| then None
    else if ClosesPorts(s, i) then Some(i)
    else PortsClose(s, i + 1)
  }

  /** `\s*\(.*?\)\s*;` matched from `p`: the port text bounds and the end of the match. */
  function TailAt(s: string, p: nat): (r: Option<(nat, nat, nat)>)
    requires p <= |s|
    decreases |s| - p
    ensures r.Some? ==> p < r.value.0 <= r.value.1 < r.value.2 <= |s|
    ensures r.Some? ==> s[r.value.0 - 1] == '(' && s[r.value.1] == ')' && s[r.value.2 - 1] == ';'
  {
    if p < |s| && IsSpace(s[p]) then TailAt(s, p + 1)
    else if p < |s| && s[p] == '(' then
      match PortsClose(s, p + 1)
      case None => None
      case Some(k) => Some((p + 1, k, SemicolonEnd(s, k + 1).value))
    else None
  }

  /** The lazy `.*?` of a `#( ... )` parameter list: the least `)` after which the rest matches. */
  function ParamsClose(s: string, i: nat): (r: Option<nat>)
    requires i <= |s|
    decreases |s| - i
    ensures r.Some? ==> i <= r.value < |s| && s[r.value] == ')'
  {
    if i == |s| then None
    else if s[i] == ')' && TailAt(s, i + 1).Some? then Some(i)
    else ParamsClose(s, i + 1)
  }

  /** The parameter list closes only where the port list can follow. */
  lemma {:induction false} ParamsCloseTail(s: string, i: nat)
    requires i <= |s| && ParamsClose(s, i).Some?
    ensures TailAt(s, ParamsClose(s, i).value + 1).Some?
    decreases |s| - i
  {
    if !(s[i] == ')' && TailAt(s, i + 1).Some?) {
      ParamsCloseTail(s, i + 1);
    }
  }

  /** `module` in any letter case at `i`. */
  predicate ModuleKeywordAt(s: string, i: nat) {
    AtIgnoreCase(s, i, "module")
  }

  /** The header match, if the text starts with a module header. */
  function MatchHeader(s: string): (r: Option<HeaderMatch>)
    ensures r.Some? ==> var m := r.value;
      && m.nameStart < m.nameEnd <= m.portsStart <= m.portsEnd < m.end <= |s|
      && (IsAsciiLetter(s[m.nameStart]) || s[m.nameStart] == '_')
      && m.nameEnd == WordEnd(s, m.nameStart + 1)
    ensures r.Some? ==> ModuleKeywordAt(s, SkipSpace(s, 0)) && SkipSpace(s, 0) + 6 < r.value.nameStart
    ensures r.Some? ==> s[r.value.end - 1] == ';'
    ensures r.Some? ==> s[r.value.portsStart - 1] == '(' && s[r.value.portsEnd] == ')'
  {
    var q0 := SkipSpace(s, 0);
    if !ModuleKeywordAt(s, q0) then None else MatchAfterKeyword(s, q0 + 6)
  }

  /** `\s+[A-Za-z_]` after the keyword, then the rest of the header. */
  function MatchAfterKeyword(s: string, q1: nat): (r: Option<HeaderMatch>)
    requires q1 <= |s|
    ensures r.Some? ==> var m := r.value;
      && q1 < m.nameStart < m.nameEnd <= m.portsStart <= m.portsEnd < m.end <= |s|
      && (IsAsciiLetter(s[m.nameStart]) || s[m.nameStart] == '_')
      && m.nameEnd == WordEnd(s, m.nameStart + 1)
      && s[m.end - 1] == ';' && s[m.portsStart - 1] == '(' && s[m.portsEnd] == ')'
  {
    if !(q1 < |s| && IsSpace(s[q1])) then None
    else
      var q2 := SkipSpace(s, q1);
      if !(q2 < |s| && (IsAsciiLetter(s[q2]) || s[q2] == '_')) then None
      else MatchAfterName(s, q2)
  }

  /** The rest of a header once its identifier is known to start at `q2`: the optional
      parameter list and the port list. */
  function MatchAfterName(s: string, q2: nat): (r: Option<HeaderMatch>)
    requires q2 < |s|
    ensures r.Some? ==> var m := r.value;
      && m.nameStart == q2 && m.nameEnd == WordEnd(s, q2 + 1)
      && m.nameStart < m.nameEnd <= m.portsStart <= m.portsEnd < m.end <= |s|
      && s[m.end - 1] == ';' && s[m.portsStart - 1] == '(' && s[m.portsEnd] == ')'
  {
    var q3 := WordEnd(s, q2 + 1);
    match TailStart(s, q3)
    case None => None
    case Some(p) =>
      match TailAt(s, p)
      case None => None
      case Some(t) => Some(HeaderMatch(q2, q3, t.0, t.1, t.2))
  }

  /** Where the port list may start after the identifier ending at `q3`: after `\s*`, and after
      a `#\s*\( ... \)` parameter list when one follows. */
  function TailStart(s: string, q3: nat): (r: Option<nat>)
    requires q3 <= |s|
    decreases |s| - q3
    ensures r.Some? ==> q3 <= r.value <= |s|
  {
    if q3 < |s| && IsSpace(s[q3]) then TailStart(s, q3 + 1)
    else if q3 < |s| && s[q3] == '#' then ParamsTail(s, q3 + 1)
    else Some(q3)
  }

  /** After `#`: `\s*\(.*?\)` of the parameter list, giving the index just after its `)`. */
  function ParamsTail(s: string, h: nat): (r: Option<nat>)
    requires h <= |s|
    decreases |s| - h
    ensures r.Some? ==> h < r.value <= |s| && s[r.value - 1] == ')'
  {
    if h < |s| && IsSpace(s[h]) then ParamsTail(s, h + 1)
    else if h < |s| && s[h] == '(' then
      match ParamsClose(s, h + 1)
      case None => None
      case Some(c) => Some(c + 1)
    else None
  }

  /** `sv_header_from_code`: the leading header text, or "" when the code does not start with one. */
  function HeaderFromCode(code: string): (r: string)
    ensures r == [] || (StartsWith(code, r) && r[|r| - 1] == ';' && ModuleKeywordAt(r, SkipSpace(r, 0)))
    ensures r == [] <==> MatchHeader(code).None?
  {
    match MatchHeader(code)
    case None => ""
    case Some(m) =>
      KeywordPrefix(code, m.end);
      code[..m.end]
  }

  // ---- the header of a header is itself --------------------------------------------------

  /** Whitespace skipping that stops inside a prefix gives the same answer on the prefix. */
  lemma {:induction false} SkipSpacePrefix(s: string, n: nat, i: nat)
    requires i <= n <= |s| && SkipSpace(s, i) < n
    ensures SkipSpace(s[..n], i) == SkipSpace(s, i)
    decreases |s| - i
  {
    if i < |s| && IsSpace(s[i]) {
      SkipSpacePrefix(s, n, i + 1);
    }
  }

  lemma {:induction false} WordEndPrefix(s: string, n: nat, i: nat)
    requires i <= n <= |s| && WordEnd(s, i) < n
    ensures WordEnd(s[..n], i) == WordEnd(s, i)
    decreases |s| - i
  {
    if i < |s| && IsWordChar(s[i]) {
      WordEndPrefix(s, n, i + 1);
    }
  }

  lemma {:induction false} SemicolonEndPrefix(s: string, n: nat, j: nat)
    requires j <= n <= |s| && SemicolonEnd(s, j).Some? && SemicolonEnd(s, j).value <= n
    ensures SemicolonEnd(s[..n], j) == SemicolonEnd(s, j)
    decreases |s| - j
  {
    if IsSpace(s[j]) {
      SemicolonEndPrefix(s, n, j + 1);
    }
  }

  /** A `\s*;` found in a prefix is found at the same place in the whole text. */
  lemma {:induction false} SemicolonEndExtend(s: string, n: nat, j: nat)
    requires j <= n <= |s| && SemicolonEnd(s[..n], j).Some?
    ensures SemicolonEnd(s, j) == SemicolonEnd(s[..n], j)
    decreases n - j
  {
    if IsSpace(s[..n][j]) {
      SemicolonEndExtend(s, n, j + 1);
    }
  }

  /** A position that cannot close the port list in `s` cannot close it in a prefix of `s` either. */
  lemma ClosesPortsExtend(s: string, n: nat, k: nat)
    requires k < n <= |s| && ClosesPorts(s[..n], k)
    ensures ClosesPorts(s, k)
  {
    SemicolonEndExtend(s, n, k + 1);
  }

  lemma {:induction false} PortsClosePrefix(s: string, n: nat, i: nat, k: nat)
    requires i <= k < n <= |s| && PortsClose(s, i) == Some(k) && SemicolonEnd(s, k + 1).value <= n
    ensures PortsClose(s[..n], i) == Some(k)
    decreases k - i
  {
    if i < k {
      if ClosesPorts(s[..n], i) {
        ClosesPortsExtend(s, n, i);
      }
      PortsClosePrefix(s, n, i + 1, k);
    } else {
      SemicolonEndPrefix(s, n, k + 1);
    }
  }

  lemma {:induction false} TailAtPrefix(s: string, n: nat, p: nat)
    requires p <= |s| && TailAt(s, p).Some? && TailAt(s, p).value.2 <= n <= |s|
    ensures TailAt(s[..n], p) == TailAt(s, p)
    decreases |s| - p
  {
    if IsSpace(s[p]) {
      TailAtPrefix(s, n, p + 1);
    } else {
      var k := PortsClose(s, p + 1).value;
      PortsClosePrefix(s, n, p + 1, k);
      SemicolonEndPrefix(s, n, k + 1);
    }
  }

  /** A tail that matches in a prefix matches in the whole text. */
  lemma {:induction false} TailAtExtend(s: string, n: nat, p: nat)
    requires p <= n <= |s| && TailAt(s[..n], p).Some?
    ensures TailAt(s, p).Some?
    decreases n - p
  {
    var t := s[..n];
    if IsSpace(t[p]) {
      TailAtExtend(s, n, p + 1);
    } else {
      var k := PortsClose(t, p + 1).value;
      ClosesPortsExtend(s, n, k);
      PortsCloseSome(s, p + 1, k);
    }
  }

  lemma {:induction false} PortsCloseSome(s: string, i: nat, k: nat)
    requires i <= k < |s| && ClosesPorts(s, k)
    ensures PortsClose(s, i).Some?
    decreases k - i
  {
    if !ClosesPorts(s, i) {
      PortsCloseSome(s, i + 1, k);
    }
  }

  lemma {:induction false} ParamsClosePrefix(s: string, n: nat, i: nat, c: nat)
    requires i <= c < n <= |s| && ParamsClose(s, i) == Some(c)
    requires TailAt(s, c + 1).Some? && TailAt(s, c + 1).value.2 <= n
    ensures ParamsClose(s[..n], i) == Some(c)
    decreases c - i
  {
    if i == c {
      ParamsCloseAt(s, n, c);
    } else {
      ParamsClosePast(s, n, i, c);
      ParamsClosePrefix(s, n, i + 1, c);
    }
  }

  lemma ParamsCloseAt(s: string, n: nat, c: nat)
    requires c < n <= |s| && s[c] == ')' && TailAt(s, c + 1).Some? && TailAt(s, c + 1).value.2 <= n
    ensures ParamsClose(s[..n], c) == Some(c)
  {
    TailAtPrefix(s, n, c + 1);
    ParamsCloseHit(s[..n], c);
  }

  /** A position before the parameter list's close is skipped in the prefix too. */
  lemma ParamsClosePast(s: string, n: nat, i: nat, c: nat)
    requires i < c < n <= |s| && ParamsClose(s, i) == Some(c)
    ensures ParamsClose(s, i + 1) == Some(c) && ParamsClose(s[..n], i) == ParamsClose(s[..n], i + 1)
  {
    ParamsCloseStep(s, i);
    if s[i] == ')' && TailAt(s[..n], i + 1).Some? {
      TailAtExtend(s, n, i + 1);
    }
    ParamsCloseStep(s[..n], i);
  }

  lemma ParamsCloseHit(s: string, i: nat)
    requires i < |s| && s[i] == ')' && TailAt(s, i + 1).Some?
    ensures ParamsClose(s, i) == Some(i)
  {
  }

  lemma ParamsCloseStep(s: string, i: nat)
    requires i < |s| && !(s[i] == ')' && TailAt(s, i + 1).Some?)
    ensures ParamsClose(s, i) == ParamsClose(s, i + 1)
  {
  }

  lemma {:induction false} ParamsTailPrefix(s: string, n: nat, h: nat)
    requires h <= |s| && ParamsTail(s, h).Some?
    requires var p := ParamsTail(s, h).value; TailAt(s, p).Some? && TailAt(s, p).value.2 <= n <= |s|
    ensures ParamsTail(s[..n], h) == ParamsTail(s, h)
    decreases |s| - h
  {
    if IsSpace(s[h]) {
      ParamsTailPrefix(s, n, h + 1);
    } else {
      ParamsClosePrefix(s, n, h + 1, ParamsTail(s, h).value - 1);
    }
  }

  lemma {:induction false} TailStartPrefix(s: string, n: nat, q3: nat)
    requires q3 <= |s| && TailStart(s, q3).Some?
    requires var p := TailStart(s, q3).value; TailAt(s, p).Some? && TailAt(s, p).value.2 <= n <= |s|
    ensures q3 <= n && TailStart(s[..n], q3) == TailStart(s, q3)
    decreases |s| - q3
  {
    if q3 < |s| && IsSpace(s[q3]) {
      TailStartPrefix(s, n, q3 + 1);
    } else if q3 < |s| && s[q3] == '#' {
      ParamsTailPrefix(s, n, q3 + 1);
    }
  }

  lemma MatchAfterNamePrefix(s: string, n: nat, q2: nat)
    requires q2 < |s| && MatchAfterName(s, q2).Some? && n == MatchAfterName(s, q2).value.end
    ensures q2 < n && MatchAfterName(s[..n], q2) == MatchAfterName(s, q2)
  {
    var q3 := WordEnd(s, q2 + 1);
    var p := TailStart(s, q3).value;
    WordEndPrefix(s, n, q2 + 1);
    TailStartPrefix(s, n, q3);
    TailAtPrefix(s, n, p);
  }

  lemma MatchAfterKeywordPrefix(s: string, n: nat, q1: nat)
    requires q1 <= |s| && MatchAfterKeyword(s, q1).Some? && n == MatchAfterKeyword(s, q1).value.end
    ensures q1 < n && MatchAfterKeyword(s[..n], q1) == MatchAfterKeyword(s, q1)
  {
    SkipSpacePrefix(s, n, q1);
    MatchAfterNamePrefix(s, n, SkipSpace(s, q1));
  }

  lemma KeywordPrefix(s: string, n: nat)
    requires ModuleKeywordAt(s, SkipSpace(s, 0)) && SkipSpace(s, 0) + 6 < n <= |s|
    ensures SkipSpace(s[..n], 0) == SkipSpace(s, 0) && ModuleKeywordAt(s[..n], SkipSpace(s, 0))
  {
    SkipSpacePrefix(s, n, 0);
  }

  /** Re-matching the text of a header gives the same match. */
  lemma MatchHeaderPrefix(s: string)
    requires MatchHeader(s).Some?
    ensures MatchHeader(s[..MatchHeader(s).value.end]) == MatchHeader(s)
  {
    var n := MatchHeader(s).value.end;
    var q0 := SkipSpace(s, 0);
    MatchHeaderUnfold(s, q0);
    KeywordPrefix(s, n);
    MatchAfterKeywordPrefix(s, n, q0 + 6);
    MatchHeaderUnfold(s[..n], q0);
  }

  lemma MatchHeaderUnfold(s: string, q0: nat)
    requires q0 == SkipSpace(s, 0) && ModuleKeywordAt(s, q0)
    ensures MatchHeader(s) == MatchAfterKeyword(s, q0 + 6)
  {
  }

  /** The header of a header is itself: the extracted text is a complete header on its own. */
  lemma HeaderIdempotent(code: string)
    ensures HeaderFromCode(HeaderFromCode(code)) == HeaderFromCode(code)
  {
    if MatchHeader(code).Some? {
      var m := MatchHeader(code).value;
      var h := code[..m.end];
      MatchHeaderPrefix(code);
      HeaderFromCodeOf(code, m);
      HeaderFromCodeOf(h, m);
      assert h[..m.end] == h;
    }
  }

  // ---- a text that starts with a header is matched -------------------------------------------

  /** `\s*` from `i` stops at `j` when everything before `j` is whitespace and `j` is not. */
  lemma {:induction false} SkipSpaceOver(s: string, i: nat, j: nat)
    requires i <= j <= |s| && (forall k | i <= k < j :: IsSpace(s[k])) && (j < |s| ==> !IsSpace(s[j]))
    ensures SkipSpace(s, i) == j
    decreases j - i
  {
    if i < j {
      SkipSpaceOver(s, i + 1, j);
    }
  }

  /** `\w*` from `i` stops at `j` when everything before `j` is a word character and `j` is not. */
  lemma {:induction false} WordEndOver(s: string, i: nat, j: nat)
    requires i <= j <= |s| && (forall k | i <= k < j :: IsWordChar(s[k])) && (j < |s| ==> !IsWordChar(s[j]))
    ensures WordEnd(s, i) == j
    decreases j - i
  {
    if i < j {
      WordEndOver(s, i + 1, j);
    }
  }

  /** The lazy port list stops at the first `)` that closes it when no `)` comes before it. */
  lemma {:induction false} PortsCloseOver(s: string, i: nat, k: nat)
    requires i <= k < |s| && ClosesPorts(s, k) && forall j | i <= j < k :: s[j] != ')'
    ensures PortsClose(s, i) == Some(k)
    decreases k - i
  {
    if i < k {
      PortsCloseOver(s, i + 1, k);
    }
  }

  /** `\(.*?\)\s*;` at `c`, when the first `)` after the `(` at `c` is at `d` and `;` follows it. */
  lemma TailAtPorts(s: string, c: nat, d: nat)
    requires c < d && d + 1 < |s| && s[c] == '(' && s[d] == ')' && s[d + 1] == ';'
    requires forall k | c + 1 <= k < d :: s[k] != ')'
    ensures TailStart(s, c) == Some(c) && TailAt(s, c) == Some((c + 1, d, d + 2))
  {
    assert SemicolonEnd(s, d + 1) == Some(d + 2);
    PortsCloseOver(s, c + 1, d);
  }

  /** The identifier ending at `q3` followed, from `p` on, by the port list: one step of the match. */
  lemma MatchAfterNameUnfold(s: string, q2: nat, q3: nat, p: nat)
    requires q2 < q3 <= p <= |s| && WordEnd(s, q2 + 1) == q3 && TailStart(s, q3) == Some(p) && TailAt(s, p).Some?
    ensures var t := TailAt(s, p).value; MatchAfterName(s, q2) == Some(HeaderMatch(q2, q3, t.0, t.1, t.2))
  {
  }

  /** The match of a header from the positions where each part of the pattern stops. */
  lemma MatchHeaderAt(s: string, a: nat, b: nat, c: nat, d: nat)
    requires a + 6 < b < c < d && d + 1 < |s|
    requires SkipSpace(s, 0) == a && ModuleKeywordAt(s, a)
    requires IsSpace(s[a + 6]) && SkipSpace(s, a + 6) == b && (IsAsciiLetter(s[b]) || s[b] == '_')
    requires WordEnd(s, b + 1) == c && TailStart(s, c) == Some(c) && TailAt(s, c) == Some((c + 1, d, d + 2))
    ensures MatchHeader(s) == Some(HeaderMatch(b, c, c + 1, d, d + 2))
  {
    MatchAfterNameUnfold(s, b, c, c);
    assert MatchAfterKeyword(s, a + 6) == MatchAfterName(s, b);
    MatchHeaderUnfold(s, a);
  }

  /**
   * A text that starts with a header is matched, and its header is exactly that leading text:
   * whitespace up to `a`, `module` in any letter case, whitespace, the identifier `s[b..c]`, and
   * the port list `s[c + 1..d]` holding no `)`, closed by `);` — whatever follows.
   */
  lemma HeaderFromCodeComplete(s: string, a: nat, b: nat, c: nat, d: nat)
    requires a + 6 < b < c < d && d + 1 < |s|
    requires (forall k | 0 <= k < a :: IsSpace(s[k])) && ModuleKeywordAt(s, a)
    requires forall k | a + 6 <= k < b :: IsSpace(s[k])
    requires (IsAsciiLetter(s[b]) || s[b] == '_') && forall k | b <= k < c :: IsWordChar(s[k])
    requires s[c] == '(' && s[d] == ')' && s[d + 1] == ';' && forall k | c + 1 <= k < d :: s[k] != ')'
    ensures MatchHeader(s).Some? && HeaderFromCode(s) == s[..d + 2]
  {
    assert !IsSpace(s[a]) by {
      assert LowerChar(s[a + 0]) == "module"[0];
    }
    SkipSpaceOver(s, 0, a);
    SkipSpaceOver(s, a + 6, b);
    WordEndOver(s, b + 1, c);
    TailAtPorts(s, c, d);
    MatchHeaderAt(s, a, b, c, d);
    HeaderFromCodeOf(s, HeaderMatch(b, c, c + 1, d, d + 2));
  }

  /** The smallest header, `module m(a);`, is its own header. */
  lemma SmallestHeader()
    ensures HeaderFromCode("module m(a);") == "module m(a);"
  {
    HeaderFromCodeComplete("module m(a);", 0, 7, 8, 10);
  }

  lemma HeaderFromCodeOf(code: string, m: HeaderMatch)
    requires MatchHeader(code) == Some(m)
    ensures HeaderFromCode(code) == code[..m.end]
  {
  }

  // ---- fenced code blocks -----------------------------------------------------------------

  const Fence: string := "```"

  /** The optional language tag after an opening fence: `verilog` or `systemverilog`, in any
      letter case when `ignoreCase` holds. Neither word is a prefix of the other, so the order in
      which the alternatives are tried does not matter. */
  function TagLength(s: string, b: nat, ignoreCase: bool): (n: nat)
    ensures n == 0 || n == 7 || n == 13
    ensures n > 0 ==> b + n <= |s| && forall k | b <= k < b + n :: s[k] != '`'
  {
    if TagAt(s, b, "verilog", ignoreCase) then
      TagHasNoBacktick(s, b, "verilog", ignoreCase);
      7
    else if TagAt(s, b, "systemverilog", ignoreCase) then
      TagHasNoBacktick(s, b, "systemverilog", ignoreCase);
      13
    else 0
  }

  lemma TagHasNoBacktick(s: string, b: nat, tag: string, ignoreCase: bool)
    requires TagAt(s, b, tag, ignoreCase) && forall k | 0 <= k < |tag| :: 'a' <= tag[k] <= 'z'
    ensures forall k | b <= k < b + |tag| :: s[k] != '`'
  {
    forall k | b <= k < b + |tag| ensures s[k] != '`' {
      if ignoreCase {
        assert LowerChar(s[b + (k - b)]) == tag[k - b];
      } else {
        assert s[k] == s[b..b + |tag|][k - b];
      }
    }
  }

  predicate TagAt(s: string, b: nat, tag: string, ignoreCase: bool)
    ensures TagAt(s, b, tag, ignoreCase) ==> b + |tag| <= |s|
  {
    if ignoreCase then AtIgnoreCase(s, b, tag) else At(s, b, tag)
  }

  /**
   * The text of the first complete fenced block, after its optional `verilog`/`systemverilog`
   * tag: it runs from the end of the tag to the next fence, and holds no fence itself.
   * The retriever's copy matches the tag case-sensitively, the module generator's copy ignores case.
   */
  function FirstBlock(content: string, ignoreCase: bool): (r: Option<string>)
    ensures r.None? <==>
      (Find(content, Fence, 0).None? || Find(content, Fence, Find(content, Fence, 0).value + 3).None?)
    ensures r.Some? ==> !Contains(r.value, Fence)
  {
    match Find(content, Fence, 0)
    case None => None
    case Some(i) =>
      var b := i + 3;
      var tag := TagLength(content, b, ignoreCase);
      NoFenceInTag(content, b, tag);
      BlockFrom(content, b + tag)
  }

  /** The text from `a` up to the next fence, if there is one. */
  function BlockFrom(content: string, a: nat): (r: Option<string>)
    ensures r.None? <==> Find(content, Fence, a).None?
    ensures r.Some? ==> !Contains(r.value, Fence)
  {
    match Find(content, Fence, a)
    case None => None
    case Some(j) =>
      NoFenceInBody(content, a, j);
      NoFenceInSlice(content[a..j], content[a..j], 0);
      Some(content[a..j])
  }

  /** `_extract_code_block`: the stripped body of the first fenced block, or the stripped whole
      text if there is no complete block. */
  function ExtractCodeBlock(content: string, ignoreCase: bool): (r: string)
    ensures FirstBlock(content, ignoreCase).None? ==> r == Strip(content)
    ensures FirstBlock(content, ignoreCase).Some? ==> !Contains(r, Fence)
  {
    match FirstBlock(content, ignoreCase)
    case None => Strip(content)
    case Some(body) =>
      StripSlice(body);
      NoFenceInSlice(body, Strip(body), StripStart(body));
      Strip(body)
  }

  /** No fence starts inside a language tag, so searching from after the tag finds the same fence. */
  lemma NoFenceInTag(s: string, b: nat, tag: nat)
    requires tag == TagLength(s, b, false) || tag == TagLength(s, b, true)
    ensures Find(s, Fence, b + tag) == Find(s, Fence, b)
  {
    if tag > 0 {
      forall k | b <= k < b + tag ensures !At(s, k, Fence) {
        assert s[k] != '`';
      }
      FindSkip(s, Fence, b, b + tag);
    }
  }

  lemma {:induction false} FindSkip(s: string, pat: string, i: nat, j: nat)
    requires i <= j && forall k | i <= k < j :: !At(s, k, pat)
    ensures Find(s, pat, i) == Find(s, pat, j)
    decreases j - i
  {
    if i < j {
      FindSkip(s, pat, i + 1, j);
    }
  }

  /** A fence inside a slice is a fence of the whole text, shifted by the slice's start. */
  lemma FenceInSlice(s: string, a: nat, b: nat)
    requires a <= b <= |s|
    ensures forall k: nat :: At(s[a..b], k, Fence) ==> a + k + 3 <= b && At(s, a + k, Fence)
  {
    forall k: nat | At(s[a..b], k, Fence) ensures a + k + 3 <= b && At(s, a + k, Fence) {
      assert s[a + k..a + k + 3] == s[a..b][k..k + 3] by {
        forall j | a + k <= j < a + k + 3 ensures s[j] == s[a..b][j - a] { }
      }
    }
  }

  /** The text between an opening fence and the first closing fence holds no fence. */
  lemma NoFenceInBody(s: string, a: nat, j: nat)
    requires a <= j && Find(s, Fence, a) == Some(j)
    ensures forall k: nat :: !At(s[a..j], k, Fence)
  {
    FenceInSlice(s, a, j);
  }

  /** A piece of a fence-free text is fence-free. */
  lemma NoFenceInSlice(body: string, r: string, i: nat)
    requires forall k: nat :: !At(body, k, Fence)
    requires i + |r| <= |body| && body[i..i + |r|] == r
    ensures !Contains(r, Fence)
  {
    FenceInSlice(body, i, i + |r|);
    ContainsIff(r, Fence);
  }

  /** The reply shape the generator is asked for: code inside a `systemverilog` fence. */
  function Fenced(code: string): (r: string) {
    Fence + "systemverilog\n" + code + "\n" + Fence
  }

  lemma FencedParts(code: string)
    ensures var s := Fenced(code);
      |s| == |code| + 21 && s[..3] == Fence && s[3..16] == "systemverilog"
      && s[16..|s| - 3] == "\n" + code + "\n" && s[|s| - 3..] == Fence
  {
  }

  /** The first block of a fenced reply is the fenced code with its two line breaks. */
  lemma FirstBlockFenced(code: string, ignoreCase: bool)
    requires !Contains(code, Fence)
    ensures FirstBlock(Fenced(code), ignoreCase) == Some("\n" + code + "\n")
  {
    var s := Fenced(code);
    OpeningFence(code);
    TagFenced(code, ignoreCase);
    ClosingFence(code);
    assert FirstBlock(s, ignoreCase) == BlockFrom(s, 16);
    FencedMiddle(code);
  }

  lemma FencedMiddle(code: string)
    ensures var s := Fenced(code); |s| == |code| + 21 && s[16..|s| - 3] == "\n" + code + "\n"
  {
    FencedParts(code);
  }

  lemma OpeningFence(code: string)
    ensures Find(Fenced(code), Fence, 0) == Some(0)
  {
    FencedParts(code);
  }

  lemma ClosingFence(code: string)
    requires !Contains(code, Fence)
    ensures Find(Fenced(code), Fence, 16) == Some(|Fenced(code)| - 3)
  {
    var s := Fenced(code);
    var j := |s| - 3;
    FencedParts(code);
    assert At(s, j, Fence);
    forall k | 16 <= k < j ensures !At(s, k, Fence) {
      NoFenceInside(code, k);
    }
    FindSkip(s, Fence, 16, j);
  }

  lemma TagFenced(code: string, ignoreCase: bool)
    ensures TagLength(Fenced(code), 3, ignoreCase) == 13
  {
    var s := Fenced(code);
    FencedParts(code);
    assert s[3] == s[3..16][0] == 's';
    assert LowerChar(s[3 + 0]) != "verilog"[0] && s[3..3 + 7][0] != "verilog"[0];
    forall k | 0 <= k < 13 ensures LowerChar(s[3 + k]) == "systemverilog"[k] {
      assert s[3 + k] == s[3..16][k];
    }
  }

  lemma NoFenceInside(code: string, k: nat)
    requires !Contains(code, Fence) && 16 <= k < |Fenced(code)| - 3
    ensures !At(Fenced(code), k, Fence)
  {
    var s := Fenced(code);
    FencedChars(code);
    if k == 16 {
      assert s[k..k + 3][0] == '\n';
    } else if k + 3 > 17 + |code| {
      assert s[k..k + 3][17 + |code| - k] == '\n';
    } else {
      ContainsIff(code, Fence);
      assert !At(code, k - 17, Fence);
      assert s[k..k + 3] == s[17..17 + |code|][k - 17..k - 14];
    }
  }

  lemma FencedChars(code: string)
    ensures var s := Fenced(code);
      |s| == |code| + 21 && s[16] == '\n' && s[17..17 + |code|] == code && s[17 + |code|] == '\n'
  {
    var s := Fenced(code);
    assert s == (Fence + "systemverilog\n") + code + ("\n" + Fence);
  }

  /** Extracting the block from a fenced reply gives back the stripped code, in either variant. */
  lemma ExtractFenced(code: string, ignoreCase: bool)
    requires !Contains(code, Fence)
    ensures ExtractCodeBlock(Fenced(code), ignoreCase) == Strip("\n" + code + "\n")
  {
    FirstBlockFenced(code, ignoreCase);
  }
}
