/**
 * The port-list parser of the seed importer (`_parse_prompt_header` in
 * code/helper/one_time_seed.py): the header's port text is cut at every comma, and each
 * chunk is cleaned up by a fixed sequence of regular-expression substitutions until only the
 * port name is left.
 *
 * Each substitution is written as a left-to-right scan over the ORIGINAL chunk, which is how
 * `re.sub` works: it never rescans the text it has already produced.
 */
module PortParse {
  import opened Base
  import opened Text
  import opened SvHeader

  // ---- `re.sub(r'//.*', '', chunk)` ------------------------------------------------------

  /** The index of the first line break at or after `p`, or the end of the text. */
  function LineEnd(s: string, p: nat): (j: nat)
    requires p <= |s|
    decreases |s| - p
    ensures p <= j <= |s| && (j < |s| ==> s[j] == '\n')
    ensures forall k | p <= k < j :: s[k] != '\n'
  {
    if p == |s| || s[p] == '\n' then p else LineEnd(s, p + 1)
  }

  predicate SlashesAt(s: string, p: nat) { p + 1 < |s| && s[p] == '/' && s[p + 1] == '/' }

  /** No `//` left in `s`. */
  predicate NoSlashes(s: string) { forall i | 0 <= i < |s| - 1 :: !(s[i] == '/' && s[i + 1] == '/') }

  /** `s[p..]` with every `//` comment removed up to (not including) the end of its line: `.`
      does not match a line break. */
  function DropLineComments(s: string, p: nat): (r: string)
    requires p <= |s|
    decreases |s| - p
    ensures |r| <= |s| - p
    ensures r != [] ==> r[0] == s[p] || r[0] == '\n'
    ensures NoSlashes(r)
  {
    if p == |s| then []
    else if SlashesAt(s, p) then DropLineComments(s, LineEnd(s, p))
    else
      var rest := DropLineComments(s, p + 1);
      assert forall i | 1 <= i < |rest| :: ([s[p]] + rest)[i] == rest[i - 1];
      [s[p]] + rest
  }

  /** A text without `//` is left as it is. */
  lemma {:induction false} DropLineCommentsPlain(s: string, p: nat)
    requires p <= |s| && forall k | p <= k :: !SlashesAt(s, k)
    ensures DropLineComments(s, p) == s[p..]
    decreases |s| - p
  {
    if p < |s| {
      DropLineCommentsPlain(s, p + 1);
      assert s[p..] == [s[p]] + s[p + 1..];
    }
  }

  // ---- `re.sub(r'/\*.*?\*/', '', token, flags=re.S)` ---------------------------------------

  predicate OpensAt(s: string, p: nat) { p + 1 < |s| && s[p] == '/' && s[p + 1] == '*' }

  predicate ClosesAt(s: string, p: nat) { p + 1 < |s| && s[p] == '*' && s[p + 1] == '/' }

  // The first comment close at or after `i` (the lazy `.*?`, which also crosses line breaks).
  function CommentClose(s: string, i: nat): (r: Option<nat>)
    requires i <= |s|
    decreases |s| - i
    ensures r.Some? ==> i <= r.value && ClosesAt(s, r.value)
    ensures forall k | i <= k && (r.None? || k < r.value) :: !ClosesAt(s, k)
  {
    if i + 1 >= |s| then None
    else if ClosesAt(s, i) then Some(i)
    else CommentClose(s, i + 1)
  }

  // `s[p..]` with every closed block comment removed. An opening without a closing after it
  // cannot match, and neither can any later one, so the rest of the text stays.
  function DropBlockComments(s: string, p: nat): (r: string)
    requires p <= |s|
    decreases |s| - p
    ensures |r| <= |s| - p
  {
    if p == |s| then []
    else if OpensAt(s, p) then
      match CommentClose(s, p + 2)
      case None => s[p..]
      case Some(k) => DropBlockComments(s, k + 2)
    else [s[p]] + DropBlockComments(s, p + 1)
  }

  // A text without a comment opening is left as it is.
  lemma {:induction false} DropBlockCommentsPlain(s: string, p: nat)
    requires p <= |s| && forall k | p <= k :: !OpensAt(s, k)
    ensures DropBlockComments(s, p) == s[p..]
    decreases |s| - p
  {
    if p < |s| {
      DropBlockCommentsPlain(s, p + 1);
      assert s[p..] == [s[p]] + s[p + 1..];
    }
  }

  // ---- `re.sub(r'\b(input|output|inout|logic|wire|reg|signed|unsigned)\b', '', token)` ------

  const Keywords: seq<string> := ["input", "output", "inout", "logic", "wire", "reg", "signed", "unsigned"]

  /** `\b` before index `p` when `s[p]` is a word character: the previous character is not one. */
  predicate WordStart(s: string, p: nat) { p == 0 || (p <= |s| && !IsWordChar(s[p - 1])) }

  /** `\b` at index `e` when `s[e - 1]` is a word character: the next character is not one. */
  predicate WordStop(s: string, e: nat) { e >= |s| || !IsWordChar(s[e]) }

  /** `Keywords[i]` occurs as a whole word at `p`. */
  predicate KeywordAt(s: string, p: nat, i: nat)
    requires i < |Keywords|
  {
    WordStart(s, p) && At(s, p, Keywords[i]) && WordStop(s, p + |Keywords[i]|)
  }

  /** The length of the first alternative, from `Keywords[i]` on, that matches at `p`. */
  function KeywordMatch(s: string, p: nat, i: nat): (r: Option<nat>)
    requires i <= |Keywords|
    decreases |Keywords| - i
    ensures r.Some? ==> exists j | i <= j < |Keywords| :: KeywordAt(s, p, j) && r.value == |Keywords[j]|
    ensures r.None? <==> forall j | i <= j < |Keywords| :: !KeywordAt(s, p, j)
  {
    if i == |Keywords| then None
    else if KeywordAt(s, p, i) then Some(|Keywords[i]|)
    else KeywordMatch(s, p, i + 1)
  }

  /** `s[p..]` with every whole-word keyword removed. */
  function DropKeywords(s: string, p: nat): (r: string)
    requires p <= |s|
    decreases |s| - p
    ensures |r| <= |s| - p
  {
    if p == |s| then []
    else
      match KeywordMatch(s, p, 0)
      case Some(n) => KeywordLength(s, p); DropKeywords(s, p + n)
      case None => [s[p]] + DropKeywords(s, p + 1)
  }

  /** Every keyword is at least three letters long and lies inside the text. */
  lemma KeywordLength(s: string, p: nat)
    requires KeywordMatch(s, p, 0).Some?
    ensures 0 < KeywordMatch(s, p, 0).value && p + KeywordMatch(s, p, 0).value <= |s|
  {
    var j :| 0 <= j < |Keywords| && KeywordAt(s, p, j) && KeywordMatch(s, p, 0).value == |Keywords[j]|;
    assert |Keywords[j]| >= 3;
  }

  /** A text with no whole-word keyword is left as it is. */
  lemma {:induction false} DropKeywordsPlain(s: string, p: nat)
    requires p <= |s| && forall k, j | p <= k < |s| && 0 <= j < |Keywords| :: !KeywordAt(s, k, j)
    ensures DropKeywords(s, p) == s[p..]
    decreases |s| - p
  {
    if p < |s| {
      assert KeywordMatch(s, p, 0).None?;
      DropKeywordsPlain(s, p + 1);
      assert s[p..] == [s[p]] + s[p + 1..];
    }
  }

  // ---- `re.sub(r'\[[^\]]*\]', '', token)` ------------------------------------------------

  /** The first index at or after `i` holding `c`. */
  function CharFind(s: string, c: char, i: nat): (r: Option<nat>)
    requires i <= |s|
    decreases |s| - i
    ensures r.Some? ==> i <= r.value < |s| && s[r.value] == c
    ensures r.None? ==> forall k | i <= k < |s| :: s[k] != c
  {
    if i == |s| then None else if s[i] == c then Some(i) else CharFind(s, c, i + 1)
  }

  predicate Lacks(s: string, c: char) { forall k | 0 <= k < |s| :: s[k] != c }

  /** `s[p..]` with every `[...]` width removed. A `[` is kept only when no `]` follows it,
      so no `[` of the result is followed by a `]`. */
  function DropWidths(s: string, p: nat): (r: string)
    requires p <= |s|
    decreases |s| - p
    ensures |r| <= |s| - p
    ensures (forall k | p <= k < |s| :: s[k] != ']') ==> Lacks(r, ']')
    ensures forall i | 0 <= i < |r| && r[i] == '[' :: Lacks(r[i + 1..], ']')
  {
    if p == |s| then []
    else if s[p] == '[' && CharFind(s, ']', p + 1).Some? then DropWidths(s, CharFind(s, ']', p + 1).value + 1)
    else
      var rest := DropWidths(s, p + 1);
      var r := [s[p]] + rest;
      assert r[1..] == rest;
      assert forall i | 1 <= i < |r| :: r[i + 1..] == rest[i..];
      r
  }

  // ---- `token.split()[-1]` and `re.sub(r'[^A-Za-z0-9_$]', '', name)` -------------------------

  /** The least index `b <= e` from which `s[b..e]` holds no whitespace. */
  function TokenStart(s: string, e: nat): (b: nat)
    requires e <= |s|
    decreases e
    ensures b <= e && (b > 0 ==> IsSpace(s[b - 1]))
    ensures forall k | b <= k < e :: !IsSpace(s[k])
  {
    if e > 0 && !IsSpace(s[e - 1]) then TokenStart(s, e - 1) else e
  }

  /** Where the last whitespace-separated token of `s` starts. */
  function LastTokenStart(s: string): (r: nat) {
    TokenStart(s, SpaceBefore(s, |s|, 0))
  }

  /** The last whitespace-separated token of `s`, or "" when `s` is all whitespace. */
  function LastToken(s: string): (r: string)
    ensures forall k | 0 <= k < |r| :: !IsSpace(r[k])
    ensures r == [] <==> AllSpace(s)
  {
    var e := SpaceBefore(s, |s|, 0);
    var b := TokenStart(s, e);
    var r := s[b..e];
    assert forall k | 0 <= k < |r| :: r[k] == s[b + k];
    r
  }

  /** The token is a piece of the text preceded by whitespace (or nothing) and followed by
      whitespace only. */
  lemma LastTokenSlice(s: string)
    ensures var b, r := LastTokenStart(s), LastToken(s);
      b + |r| <= |s| && s[b..b + |r|] == r && (b > 0 ==> IsSpace(s[b - 1]))
      && forall k | b + |r| <= k < |s| :: IsSpace(s[k])
  {
  }

  /** The characters a port name may hold. */
  predicate IsPortChar(c: char) { IsAsciiLetter(c) || IsDigit(c) || c == '_' || c == '$' }

  /** `s` with every character outside `[A-Za-z0-9_$]` removed, order kept. */
  function PortChars(s: string): (r: string)
    ensures |r| <= |s| && forall k | 0 <= k < |r| :: IsPortChar(r[k])
    ensures (forall k | 0 <= k < |s| :: IsPortChar(s[k])) ==> r == s
  {
    if s == [] then []
    else
      var rest := PortChars(s[1..]);
      if IsPortChar(s[0]) then
        assert forall k | 1 <= k < |s| :: s[1..][k - 1] == s[k];
        [s[0]] + rest
      else rest
  }

  // ---- one chunk and the whole list ---------------------------------------------------------

  predicate ValidPortName(n: string) { n != [] && forall k | 0 <= k < |n| :: IsPortChar(n[k]) }

  /** The port named by one comma-separated chunk of the port list, if any. */
  function ChunkPort(chunk: string): (r: Option<string>)
    ensures r.Some? ==> ValidPortName(r.value)
    ensures AllSpace(DropBlockComments(DropLineComments(chunk, 0), 0)) ==> r.None?
  {
    var t := Strip(DropBlockComments(DropLineComments(chunk, 0), 0));
    if t == [] then None
    else
      var name := PortChars(LastToken(DropWidths(DropKeywords(t, 0), 0)));
      if name == [] then None else Some(name)
  }

  /** The ports of a list of chunks: one per chunk that names a port, in chunk order. */
  function PortNames(chunks: seq<string>): (r: seq<string>)
    ensures |r| <= |chunks|
    ensures forall k | 0 <= k < |r| :: ValidPortName(r[k])
  {
    if chunks == [] then []
    else PortNames(chunks[..|chunks| - 1]) + OptionList(ChunkPort(chunks[|chunks| - 1]))
  }

  function OptionList(o: Option<string>): (r: seq<string>)
    ensures |r| <= 1 && (o.Some? ==> r == [o.value]) && (o.None? ==> r == [])
  {
    match o
    case None => []
    case Some(n) => [n]
  }

  /** The identifier and port text of a matched header. */
  function HeaderName(s: string, m: HeaderMatch): (r: string)
    requires m.nameStart <= m.nameEnd <= |s|
  {
    s[m.nameStart..m.nameEnd]
  }

  predicate IsIdentifier(n: string) {
    n != [] && (IsAsciiLetter(n[0]) || n[0] == '_') && forall k | 0 <= k < |n| :: IsWordChar(n[k])
  }

  /** The module name and port names a prompt's header declares, or ("", []) without a header. */
  function PromptHeader(prompt: string): (string, seq<string>) {
    match MatchHeader(prompt)
    case None => ("", [])
    case Some(m) => (HeaderName(prompt, m), PortNames(Split(prompt[m.portsStart..m.portsEnd], ',')))
  }

  /** `_parse_prompt_header`: the module name and port names of a prompt's header, or ("", [])
      when the prompt does not start with one. */
  method ParsePromptHeader(prompt: string) returns (name: string, ports: seq<string>)
    ensures MatchHeader(prompt).None? ==> name == [] && ports == []
    ensures MatchHeader(prompt).Some? ==> var m := MatchHeader(prompt).value;
      IsIdentifier(name) && name == HeaderName(prompt, m)
      && ports == PortNames(Split(prompt[m.portsStart..m.portsEnd], ','))
    ensures forall k | 0 <= k < |ports| :: ValidPortName(ports[k])
    ensures (name, ports) == PromptHeader(prompt)
  {
    var mo := MatchHeader(prompt);
    if mo.None? {
      return "", [];
    }
    var m := mo.value;
    name := prompt[m.nameStart..m.nameEnd];
    NameIsIdentifier(prompt, m);
    ports := ChunkPorts(Split(prompt[m.portsStart..m.portsEnd], ','));
  }

  /** The `for chunk in ports_raw.split(",")` loop. */
  method ChunkPorts(chunks: seq<string>) returns (ports: seq<string>)
    ensures ports == PortNames(chunks)
    ensures forall k | 0 <= k < |ports| :: ValidPortName(ports[k])
  {
    ports := [];
    var i := 0;
    while i < |chunks|
      invariant 0 <= i <= |chunks|
      invariant ports == PortNames(chunks[..i])
    {
      var p := ChunkPort(chunks[i]);
      if p.Some? {
        ports := ports + [p.value];
      }
      assert chunks[..i + 1][..i] == chunks[..i];
      i := i + 1;
    }
    assert chunks[..|chunks|] == chunks;
  }

  /** The matched name is an identifier: a letter or `_`, then word characters. */
  lemma NameIsIdentifier(s: string, m: HeaderMatch)
    requires MatchHeader(s) == Some(m)
    ensures IsIdentifier(HeaderName(s, m))
  {
    WordEndAll(s, m.nameStart + 1);
  }

  lemma {:induction false} WordEndAll(s: string, i: nat)
    requires i <= |s|
    ensures forall k | i <= k < WordEnd(s, i) :: IsWordChar(s[k])
    decreases |s| - i
  {
    if i < |s| && IsWordChar(s[i]) {
      WordEndAll(s, i + 1);
    }
  }
}
