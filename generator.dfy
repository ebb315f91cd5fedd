/**
 * The module generator's text handling: the child-header context given to the model, the
 * port list, and the bounded retry loop around the completion request. The request itself is
 * the oracle `complete`, which answers a request on a given attempt with a reply or a failure.
 */
module Generator {
  import opened Base
  import opened Text
  import opened SvHeader
  import opened Hierarchy

  /** An insertion-ordered string dictionary: the entries in the order their keys were first added. */
  type Entries = seq<(string, string)>

  function KeysOf(d: Entries): (r: seq<string>)
    ensures |r| == |d| && forall i | 0 <= i < |d| :: r[i] == d[i].0
  {
    seq(|d|, i requires 0 <= i < |d| => d[i].0)
  }

  predicate DistinctKeys(d: Entries) {
    forall i, j | 0 <= i < j < |d| :: d[i].0 != d[j].0
  }

  /** `d[k] = v`: a present key keeps its position and takes the new value, a new key goes last. */
  function Put(d: Entries, k: string, v: string): (r: Entries)
    requires DistinctKeys(d)
    ensures DistinctKeys(r)
    ensures |r| == if k in KeysOf(d) then |d| else |d| + 1
    ensures forall i | 0 <= i < |d| :: r[i] == if d[i].0 == k then (k, v) else d[i]
    ensures k !in KeysOf(d) ==> r[|d|] == (k, v)
  {
    if k in KeysOf(d) then
      seq(|d|, i requires 0 <= i < |d| => if d[i].0 == k then (k, v) else d[i])
    else
      d + [(k, v)]
  }

  // ---- the child-header context ----------------------------------------------------------

  const HeadersIntro := "Prior lower-level module interfaces (headers only):\n```systemverilog\n"
  const FenceClose := "\n```"

  /** The block one child contributes: a comment naming it, then its header. */
  function ChildBlock(child: string, header: string): string {
    "// child: " + child + "\n" + header
  }

  function Blocks(d: Entries): (r: seq<string>)
    ensures |r| == |d| && forall i | 0 <= i < |d| :: r[i] == ChildBlock(d[i].0, d[i].1)
  {
    seq(|d|, i requires 0 <= i < |d| => ChildBlock(d[i].0, d[i].1))
  }

  /** The fenced list of child blocks separated by blank lines; nothing at all for no children. */
  function ChildHeadersText(d: Entries): (r: string)
    ensures r == "" <==> d == []
    ensures d != [] ==> StartsWith(r, HeadersIntro)
  {
    if d == [] then "" else HeadersIntro + Join("\n\n", Blocks(d)) + FenceClose
  }

  /** `_format_child_headers`: one block per entry, in dictionary order. */
  method FormatChildHeaders(childHeaders: Entries) returns (r: string)
    ensures r == ChildHeadersText(childHeaders)
  {
    if |childHeaders| == 0 {
      return "";
    }
    var blocks: seq<string> := [];
    for i := 0 to |childHeaders|
      invariant blocks == Blocks(childHeaders[..i])
    {
      blocks := blocks + [ChildBlock(childHeaders[i].0, childHeaders[i].1)];
    }
    assert childHeaders[..|childHeaders|] == childHeaders;
    r := HeadersIntro + Join("\n\n", blocks) + FenceClose;
  }

  /** `pat` occurs in `s` shifted by a prefix. */
  lemma AtShift(pre: string, s: string, k: nat, pat: string)
    requires At(s, k, pat)
    ensures At(pre + s, |pre| + k, pat)
  {
    assert (pre + s)[|pre| + k..|pre| + k + |pat|] == s[k..k + |pat|];
  }

  /** Every part of a join occurs in it. */
  lemma {:induction false} JoinHasPart(sep: string, parts: seq<string>, i: nat)
    requires i < |parts|
    ensures exists k :: At(Join(sep, parts), k, parts[i])
    decreases |parts|
  {
    if |parts| == 1 {
      assert At(Join(sep, parts), 0, parts[0]);
    } else if i == 0 {
      var s := Join(sep, parts);
      assert s == parts[0] + (sep + Join(sep, parts[1..]));
      assert s[0..|parts[0]|] == parts[0];
      assert At(s, 0, parts[0]);
    } else {
      JoinHasPart(sep, parts[1..], i - 1);
      var k :| At(Join(sep, parts[1..]), k, parts[1..][i - 1]);
      AtShift(parts[0] + sep, Join(sep, parts[1..]), k, parts[i]);
      assert Join(sep, parts) == (parts[0] + sep) + Join(sep, parts[1..]);
      assert At(Join(sep, parts), |parts[0] + sep| + k, parts[i]);
    }
  }

  /** The formatted context mentions every child's block. */
  lemma ChildHeadersListsEach(d: Entries, i: nat)
    requires i < |d|
    ensures Contains(ChildHeadersText(d), ChildBlock(d[i].0, d[i].1))
  {
    var b := Blocks(d);
    JoinHasPart("\n\n", b, i);
    var k :| At(Join("\n\n", b), k, b[i]);
    AtShift(HeadersIntro, Join("\n\n", b), k, b[i]);
    var s := HeadersIntro + Join("\n\n", b);
    assert At(s + FenceClose, |HeadersIntro| + k, b[i]) by {
      assert (s + FenceClose)[|HeadersIntro| + k..|HeadersIntro| + k + |b[i]|]
          == s[|HeadersIntro| + k..|HeadersIntro| + k + |b[i]|];
    }
    ContainsIff(ChildHeadersText(d), b[i]);
  }

  /** A child's header counts when it has accepted, non-empty code that starts with a header. */
  function AcceptedHeader(accum: map<string, string>, child: string, header: string -> string): (r: string)
    ensures r != "" ==> child in accum && accum[child] != ""
  {
    if child in accum && accum[child] != "" then header(accum[child]) else ""
  }

  /** The blocks `build_module_context` collects, in the order of the children list. */
  function ContextBlocks(children: seq<string>, accum: map<string, string>, header: string -> string): (r: seq<string>)
    ensures |r| <= |children|
  {
    if children == [] then []
    else
      var ch := children[|children| - 1];
      var hdr := AcceptedHeader(accum, ch, header);
      ContextBlocks(children[..|children| - 1], accum, header) + (if hdr != "" then [ChildBlock(ch, hdr)] else [])
  }

  /** Extending the children by one adds that child's block, if it has one. */
  lemma ContextBlocksStep(children: seq<string>, i: nat, accum: map<string, string>, header: string -> string)
    requires i < |children|
    ensures ContextBlocks(children[..i + 1], accum, header)
      == ContextBlocks(children[..i], accum, header)
         + (var hdr := AcceptedHeader(accum, children[i], header); if hdr != "" then [ChildBlock(children[i], hdr)] else [])
  {
    assert children[..i + 1][..i] == children[..i];
  }

  /** The context text: the same fenced list as the formatted headers, with a final line break. */
  function ContextText(blocks: seq<string>): (r: string)
    ensures r == "" <==> blocks == []
  {
    if blocks == [] then "" else HeadersIntro + Join("\n\n", blocks) + FenceClose + "\n"
  }

  /** `build_module_context`: the headers of the module's children that have accepted code. */
  method BuildModuleContext(moduleName: string, mods: map<string, ModuleSpec>, accum: map<string, string>)
    returns (ctx: string)
    ensures ctx == ContextText(ContextBlocks(Children(mods, moduleName), accum, HeaderFromCode))
  {
    var headers := CollectChildBlocks(Children(mods, moduleName), accum, HeaderFromCode);
    ctx := "";
    if |headers| > 0 {
      ctx := HeadersIntro;
      ctx := ctx + Join("\n\n", headers) + FenceClose + "\n";
    }
  }

  /** The loop of `build_module_context` over the children, collecting one block per accepted header. */
  method CollectChildBlocks(children: seq<string>, accum: map<string, string>, header: string -> string)
    returns (headers: seq<string>)
    ensures headers == ContextBlocks(children, accum, header)
  {
    headers := [];
    for i := 0 to |children|
      invariant headers == ContextBlocks(children[..i], accum, header)
    {
      var ch := children[i];
      ContextBlocksStep(children, i, accum, header);
      if ch in accum && accum[ch] != "" {
        var hdr := header(accum[ch]);
        if hdr != "" {
          headers := headers + [ChildBlock(ch, hdr)];
        }
      }
    }
    assert children[..|children|] == children;
  }

  /** The context is empty exactly when no child has an accepted header. */
  lemma {:induction false} ContextEmptyIff(children: seq<string>, accum: map<string, string>, header: string -> string)
    ensures ContextBlocks(children, accum, header) == [] <==> forall k | 0 <= k < |children| :: AcceptedHeader(accum, children[k], header) == ""
    decreases |children|
  {
    if children != [] {
      var n := |children| - 1;
      var init := children[..n];
      var last := AcceptedHeader(accum, children[n], header);
      ContextEmptyIff(init, accum, header);
      assert ContextBlocks(children, accum, header)
          == ContextBlocks(init, accum, header) + (if last != "" then [ChildBlock(children[n], last)] else []);
      if last == "" {
        assert forall k | 0 <= k < |init| :: init[k] == children[k];
      }
    }
  }

  /** The context lists the block of every child that has an accepted header. */
  lemma {:induction false} ContextBlocksMembers(children: seq<string>, accum: map<string, string>, header: string -> string, k: nat)
    requires k < |children| && AcceptedHeader(accum, children[k], header) != ""
    ensures ChildBlock(children[k], AcceptedHeader(accum, children[k], header)) in ContextBlocks(children, accum, header)
    decreases |children|
  {
    if k < |children| - 1 {
      var init := children[..|children| - 1];
      ContextBlocksMembers(init, accum, header, k);
    }
  }

  /** Conversely, every block in the context belongs to some child with an accepted header. */
  lemma {:induction false} ContextBlocksOnly(children: seq<string>, accum: map<string, string>, header: string -> string, b: string)
    requires b in ContextBlocks(children, accum, header)
    ensures exists k | 0 <= k < |children| ::
      AcceptedHeader(accum, children[k], header) != "" && b == ChildBlock(children[k], AcceptedHeader(accum, children[k], header))
    decreases |children|
  {
    var n := |children| - 1;
    var init := children[..n];
    var hdr := AcceptedHeader(accum, children[n], header);
    if b in ContextBlocks(init, accum, header) {
      ContextBlocksOnly(init, accum, header, b);
      var k :| 0 <= k < |init| && AcceptedHeader(accum, init[k], header) != ""
        && b == ChildBlock(init[k], AcceptedHeader(accum, init[k], header));
      assert init[k] == children[k];
    } else {
      assert hdr != "" && b == ChildBlock(children[n], hdr);
    }
  }

  // ---- the request ------------------------------------------------------------------------

  /** The port text: the ports joined by commas, or a note that none were given. */
  function PortsText(interfaceSig: seq<string>): (r: string)
    ensures interfaceSig == [] ==> r == "(no ports specified)"
  {
    if interfaceSig == [] then "(no ports specified)" else Join(", ", interfaceSig)
  }

  /** Every port is named in the port text. */
  lemma PortsTextListsEach(interfaceSig: seq<string>, i: nat)
    requires i < |interfaceSig|
    ensures Contains(PortsText(interfaceSig), interfaceSig[i])
  {
    JoinHasPart(", ", interfaceSig, i);
    ContainsIff(PortsText(interfaceSig), interfaceSig[i]);
  }

  /** What the completion request carries; the wording around these parts is not modelled. */
  datatype Request = Request(
    moduleName: string,
    description: string,
    portsText: string,
    childHeaders: string,
    reference: Option<(string, Option<real>)>,
    designFacts: Entries,
    previousGeneration: Option<string>,
    extraNotes: string)

  /** The request built from the generator's arguments: empty retrieved or previous code is left out. */
  function RequestFor(moduleName: string, description: string, interfaceSig: seq<string>, childHeaders: Entries,
                      retrievedCode: Option<string>, retrievedWeight: Option<real>, extraNotes: Option<string>,
                      previousGeneration: Option<string>, designFacts: Entries): (r: Request)
    ensures r.portsText == PortsText(interfaceSig) && r.childHeaders == ChildHeadersText(childHeaders)
    ensures r.reference.Some? <==> retrievedCode.Some? && retrievedCode.value != ""
    ensures r.previousGeneration.Some? <==> previousGeneration.Some? && previousGeneration.value != ""
  {
    Request(moduleName, description, PortsText(interfaceSig), ChildHeadersText(childHeaders),
            if retrievedCode.Some? && retrievedCode.value != "" then Some((retrievedCode.value, retrievedWeight)) else None,
            designFacts,
            if previousGeneration.Some? && previousGeneration.value != "" then previousGeneration else None,
            if extraNotes.Some? then extraNotes.value else "")
  }

  /** Why generation gives up: no API key, or every attempt failed. */
  datatype GenError = MissingApiKey | RetriesExhausted(maxRetries: int)

  /** The default number of attempts. */
  const DefaultMaxRetries := 3

  /**
   * `module_generator_llm`: without a key it fails at once; otherwise it sends the same request up
   * to `maxRetries` times and returns the code block of the first reply.
   */
  method ModuleGeneratorLlm(apiKey: string, moduleName: string, description: string, interfaceSig: seq<string>,
                            childHeaders: Entries, retrievedCode: Option<string>, retrievedWeight: Option<real>,
                            extraNotes: Option<string>, previousGeneration: Option<string>, designFacts: Entries,
                            maxRetries: int, complete: (Request, nat) -> Option<string>)
    returns (r: Result<string, GenError>, attempts: nat)
    ensures var req := RequestFor(moduleName, description, interfaceSig, childHeaders, retrievedCode, retrievedWeight,
                                  extraNotes, previousGeneration, designFacts);
      r == Generate(apiKey, req, maxRetries, complete) && attempts == AttemptsUsed(apiKey, req, maxRetries, complete)
  {
    if apiKey == "" {
      return Err(MissingApiKey), 0;
    }
    var headersCtx := FormatChildHeaders(childHeaders);
    var req := Request(moduleName, description, PortsText(interfaceSig), headersCtx,
                       if retrievedCode.Some? && retrievedCode.value != "" then Some((retrievedCode.value, retrievedWeight)) else None,
                       designFacts,
                       if previousGeneration.Some? && previousGeneration.value != "" then previousGeneration else None,
                       if extraNotes.Some? then extraNotes.value else "");
    assert req == RequestFor(moduleName, description, interfaceSig, childHeaders, retrievedCode, retrievedWeight,
                             extraNotes, previousGeneration, designFacts);
    r, attempts := RetryCompletion(apiKey, req, maxRetries, complete);
  }

  /** The retry loop of `module_generator_llm`: the same request, until a reply or `maxRetries` attempts. */
  method RetryCompletion(apiKey: string, req: Request, maxRetries: int, complete: (Request, nat) -> Option<string>)
    returns (r: Result<string, GenError>, attempts: nat)
    requires apiKey != ""
    ensures r == Generate(apiKey, req, maxRetries, complete) && attempts == AttemptsUsed(apiKey, req, maxRetries, complete)
  {
    attempts := 0;
    while attempts < maxRetries
      invariant attempts <= if maxRetries > 0 then maxRetries else 0
      invariant FirstReply(req, complete, 1, maxRetries) == FirstReply(req, complete, attempts + 1, maxRetries)
    {
      FirstReplyStep(req, complete, attempts + 1, maxRetries);
      attempts := attempts + 1;
      var reply := complete(req, attempts);
      if reply.Some? {
        assert FirstReply(req, complete, 1, maxRetries) == Some(attempts);
        return Ok(ExtractCodeBlock(reply.value, true)), attempts;
      }
    }
    FirstReplyStep(req, complete, attempts + 1, maxRetries);
    assert FirstReply(req, complete, 1, maxRetries) == None;
    r := Err(RetriesExhausted(maxRetries));
  }

  /** The first attempt from `a` on, up to `maxRetries`, whose request gets a reply. */
  function FirstReply(req: Request, complete: (Request, nat) -> Option<string>, a: nat, maxRetries: int): (r: Option<nat>)
    decreases maxRetries + 1 - a
    ensures r.Some? ==> a <= r.value <= maxRetries && complete(req, r.value).Some?
  {
    if a > maxRetries then None
    else if complete(req, a).Some? then Some(a)
    else FirstReply(req, complete, a + 1, maxRetries)
  }

  /** No attempt before the first reply (and none at all, when there is none) gets a reply. */
  lemma {:induction false} FirstReplyIsFirst(req: Request, complete: (Request, nat) -> Option<string>, a: nat,
                                             maxRetries: int, b: nat)
    requires a <= b <= maxRetries
    requires FirstReply(req, complete, a, maxRetries).None? || b < FirstReply(req, complete, a, maxRetries).value
    ensures complete(req, b).None?
    decreases maxRetries + 1 - a
  {
    if b > a {
      FirstReplyIsFirst(req, complete, a + 1, maxRetries, b);
    }
  }

  /**
   * How many attempts the generator makes: none without a key, the first one that gets a reply,
   * or all `maxRetries` of them when none does.
   */
  function AttemptsUsed(apiKey: string, req: Request, maxRetries: int, complete: (Request, nat) -> Option<string>)
    : (n: nat)
    ensures apiKey == "" ==> n == 0
    ensures n <= if maxRetries > 0 then maxRetries else 0
    ensures var g := Generate(apiKey, req, maxRetries, complete);
      (g.Ok? ==> 1 <= n && complete(req, n).Some? && g.value == ExtractCodeBlock(complete(req, n).value, true))
      && (apiKey != "" && g.Err? ==> g == Err(RetriesExhausted(maxRetries)) && n == (if maxRetries > 0 then maxRetries else 0))
  {
    if apiKey == "" then 0
    else match FirstReply(req, complete, 1, maxRetries)
      case None => if maxRetries > 0 then maxRetries else 0
      case Some(a) => a
  }

  /** One unfolding of `FirstReply` at attempt `a`. */
  lemma FirstReplyStep(req: Request, complete: (Request, nat) -> Option<string>, a: nat, maxRetries: int)
    ensures a > maxRetries ==> FirstReply(req, complete, a, maxRetries) == None
    ensures a <= maxRetries && complete(req, a).Some? ==> FirstReply(req, complete, a, maxRetries) == Some(a)
    ensures a <= maxRetries && complete(req, a).None? ==>
      FirstReply(req, complete, a, maxRetries) == FirstReply(req, complete, a + 1, maxRetries)
  { }

  /** What the generator returns for a request: the code block of the first reply. */
  function Generate(apiKey: string, req: Request, maxRetries: int, complete: (Request, nat) -> Option<string>)
    : (r: Result<string, GenError>)
    ensures apiKey == "" ==> r == Err(MissingApiKey)
    ensures apiKey != "" && r.Err? ==> r == Err(RetriesExhausted(maxRetries))
  {
    if apiKey == "" then Err(MissingApiKey)
    else match FirstReply(req, complete, 1, maxRetries)
      case None => Err(RetriesExhausted(maxRetries))
      case Some(a) => Ok(ExtractCodeBlock(complete(req, a).value, true))
  }

  /**
   * With a key, the generator fails exactly when every attempt fails; it makes no attempt after
   * the one that succeeds, and none before it got a reply.
   */
  lemma GenerateFirstReply(apiKey: string, req: Request, maxRetries: int, complete: (Request, nat) -> Option<string>)
    requires apiKey != ""
    ensures Generate(apiKey, req, maxRetries, complete).Err? <==> forall a | 1 <= a <= maxRetries :: complete(req, a).None?
    ensures forall a | 1 <= a <= AttemptsUsed(apiKey, req, maxRetries, complete)
                       && (Generate(apiKey, req, maxRetries, complete).Ok? ==> a < AttemptsUsed(apiKey, req, maxRetries, complete))
              :: complete(req, a).None?
  {
    var first := FirstReply(req, complete, 1, maxRetries);
    forall a | 1 <= a <= maxRetries && (first.None? || a < first.value)
      ensures complete(req, a).None?
    {
      FirstReplyIsFirst(req, complete, 1, maxRetries, a);
    }
  }

  /** With no attempts allowed the generator gives up without sending anything. */
  lemma NoAttemptsNoCode(apiKey: string, req: Request, maxRetries: int, complete: (Request, nat) -> Option<string>)
    requires apiKey != "" && maxRetries <= 0
    ensures Generate(apiKey, req, maxRetries, complete) == Err(RetriesExhausted(maxRetries))
  {
  }
}
