/**
 * The one-time seeding of the library from the VerilogEval JSONL file: one record per line, each
 * with a task id, a prompt holding the module header and a canonical solution. Every record with
 * both a prompt and a solution becomes one library entry, keyed by task id and module name.
 *
 * Reading the file is a sequence of lines; JSON decoding is the oracle `decode`, which yields no
 * record for a line that is not a JSON object.
 */
module SeedImport {
  import opened Base
  import opened Text
  import opened WeightPolicy
  import opened PortParse
  import opened Retrieval

  /** The fields of one decoded line that the import reads; an absent field is `None`. */
  datatype Record = Record(taskId: Option<string>, prompt: Option<string>, solution: Option<string>)

  /** The arguments of one upsert. */
  datatype SeedEntry = SeedEntry(name: string, description: string, ports: seq<string>, code: string, tags: seq<string>)

  /** What importing a run of lines does: the upserts made, and the index of the line that could
      not be decoded, if one stopped the import. */
  datatype SeedPlan = SeedPlan(entries: seq<SeedEntry>, failedAt: Option<nat>)

  /** `rec.get(key, default)` for a string field. */
  function FieldOr(f: Option<string>, default: string): (r: string) {
    if f.Some? then f.value else default
  }

  /** The module part of the library key: the parsed module name, or "module" when there is none. */
  function ModulePart(moduleName: string): (r: string)
    ensures r != []
  {
    if moduleName == "" then "module" else moduleName
  }

  /** The library key: `task_id + "__" + module`. */
  function UniqueName(taskId: string, moduleName: string): (r: string) {
    taskId + "__" + ModulePart(moduleName)
  }

  /** The entry's description, which names the task and the module. */
  function SeedDescription(taskId: string, moduleName: string): (r: string) {
    "verilogEval::" + taskId + " — seed entry for retrieval; prompt-derived module '"
      + ModulePart(moduleName) + "'."
  }

  /** The upsert a decoded record asks for, or `None` when it lacks a prompt or a solution. */
  function EntryOf(rec: Record): (r: Option<SeedEntry>)
    ensures r.Some? <==> FieldOr(rec.prompt, "") != "" && FieldOr(rec.solution, "") != ""
    ensures r.Some? ==> var taskId := FieldOr(rec.taskId, "unknown");
      r.value.code == rec.solution.value && r.value.tags == ["verilogEval", taskId]
      && r.value.description == SeedDescription(taskId, PromptHeader(rec.prompt.value).0)
      && r.value.ports == PromptHeader(rec.prompt.value).1
      && r.value.name == UniqueName(taskId, PromptHeader(rec.prompt.value).0)
  {
    var taskId := FieldOr(rec.taskId, "unknown");
    var prompt := FieldOr(rec.prompt, "");
    var code := FieldOr(rec.solution, "");
    if prompt == "" || code == "" then None
    else
      var (name, ports) := PromptHeader(prompt);
      Some(SeedEntry(UniqueName(taskId, name), SeedDescription(taskId, name), ports, code, ["verilogEval", taskId]))
  }

  /** The line stops the import: it is not blank and does not decode. */
  predicate Stops(line: string, decode: string -> Option<Record>) {
    Strip(line) != [] && decode(Strip(line)).None?
  }

  /** The upserts one line asks for: none for a blank line, a record it skips or a line that stops the import. */
  function Added(line: string, decode: string -> Option<Record>): (r: seq<SeedEntry>)
    ensures |r| <= 1
  {
    var t := Strip(line);
    if t == [] then []
    else match decode(t)
      case None => []
      case Some(rec) => OptionEntry(EntryOf(rec))
  }

  /** The import after line `idx`, given what it did before it. */
  function Next(p: SeedPlan, line: string, idx: nat, decode: string -> Option<Record>): (q: SeedPlan)
    ensures |q.entries| <= |p.entries| + 1
    ensures q.failedAt.Some? ==> q.failedAt == p.failedAt || q.failedAt == Some(idx)
  {
    if p.failedAt.Some? then p
    else if Stops(line, decode) then SeedPlan(p.entries, Some(idx))
    else SeedPlan(p.entries + Added(line, decode), None)
  }

  /** What importing `lines` does: blank lines are skipped, the first undecodable line stops it. */
  function Plan(lines: seq<string>, decode: string -> Option<Record>): (p: SeedPlan)
    decreases |lines|
    ensures |p.entries| <= |lines|
    ensures p.failedAt.Some? ==> p.failedAt.value < |lines|
  {
    if lines == [] then SeedPlan([], None)
    else Next(Plan(lines[..|lines| - 1], decode), lines[|lines| - 1], |lines| - 1, decode)
  }

  function OptionEntry(e: Option<SeedEntry>): (r: seq<SeedEntry>)
    ensures |r| <= 1 && (e.Some? ==> r == [e.value]) && (e.None? ==> r == [])
  {
    if e.Some? then [e.value] else []
  }

  /** Once a line has stopped the import, later lines change nothing. */
  lemma {:induction false} PlanStopped(lines: seq<string>, i: nat, decode: string -> Option<Record>)
    requires i <= |lines| && Plan(lines[..i], decode).failedAt.Some?
    ensures Plan(lines, decode) == Plan(lines[..i], decode)
    decreases |lines| - i
  {
    if i < |lines| {
      assert lines[..i + 1][..i] == lines[..i];
      PlanStopped(lines, i + 1, decode);
    } else {
      assert lines[..i] == lines;
    }
  }

  /** The lines that give an entry: not blank, decodable, with a prompt and a solution. */
  predicate Imports(line: string, decode: string -> Option<Record>) {
    var t := Strip(line);
    t != [] && decode(t).Some? && EntryOf(decode(t).value).Some?
  }

  /** How many of `lines` give an entry. */
  function ImportCount(lines: seq<string>, decode: string -> Option<Record>): nat
    decreases |lines|
  {
    if lines == [] then 0
    else ImportCount(lines[..|lines| - 1], decode) + (if Imports(lines[|lines| - 1], decode) then 1 else 0)
  }

  /** An import that is not stopped makes exactly one upsert per line that gives an entry. */
  lemma {:induction false} PlanCount(lines: seq<string>, decode: string -> Option<Record>)
    requires Plan(lines, decode).failedAt.None?
    ensures |Plan(lines, decode).entries| == ImportCount(lines, decode)
    decreases |lines|
  {
    if lines != [] {
      PlanCount(lines[..|lines| - 1], decode);
    }
  }

  /** An entry keyed by its task id, tagged with the benchmark and the task, with valid port names. */
  predicate WellFormedEntry(e: SeedEntry) {
    |e.tags| == 2 && e.tags[0] == "verilogEval" && StartsWith(e.name, e.tags[1] + "__")
    && forall k | 0 <= k < |e.ports| :: ValidPortName(e.ports[k])
  }

  /** What a record gives is well formed. */
  lemma EntryWellFormed(rec: Record)
    requires EntryOf(rec).Some?
    ensures WellFormedEntry(EntryOf(rec).value)
  {
    var e := EntryOf(rec).value;
    var taskId := FieldOr(rec.taskId, "unknown");
    PromptHeaderPorts(rec.prompt.value);
    assert e.name == (taskId + "__") + ModulePart(PromptHeader(rec.prompt.value).0);
  }

  /** Every entry of a plan is well formed. */
  predicate AllWellFormed(es: seq<SeedEntry>) {
    forall k | 0 <= k < |es| :: WellFormedEntry(es[k])
  }

  /** Every seeded entry is well formed. */
  lemma {:induction false} PlanEntriesWellFormed(lines: seq<string>, decode: string -> Option<Record>)
    ensures AllWellFormed(Plan(lines, decode).entries)
    decreases |lines|
  {
    if lines != [] {
      var i := |lines| - 1;
      PlanEntriesWellFormed(lines[..i], decode);
      NextWellFormed(Plan(lines[..i], decode), lines[i], i, decode);
    }
  }

  /** One more line keeps every entry well formed. */
  lemma NextWellFormed(p: SeedPlan, line: string, idx: nat, decode: string -> Option<Record>)
    requires AllWellFormed(p.entries)
    ensures AllWellFormed(Next(p, line, idx, decode).entries)
  {
    AddedWellFormed(line, decode);
    if p.failedAt.None? && !Stops(line, decode) {
      var es := p.entries + Added(line, decode);
      assert forall k | |p.entries| <= k < |es| :: es[k] == Added(line, decode)[k - |p.entries|];
    }
  }

  /** What one line adds is well formed. */
  lemma AddedWellFormed(line: string, decode: string -> Option<Record>)
    ensures var a := Added(line, decode);
      forall k | 0 <= k < |a| :: WellFormedEntry(a[k])
  {
    var t := Strip(line);
    if t != [] && decode(t).Some? && EntryOf(decode(t).value).Some? {
      EntryWellFormed(decode(t).value);
    }
  }

  /** The ports of a prompt header are valid port names. */
  lemma PromptHeaderPorts(prompt: string)
    ensures forall k | 0 <= k < |PromptHeader(prompt).1| :: ValidPortName(PromptHeader(prompt).1[k])
  {
  }

  /** One more line of the import. */
  lemma PlanStep(lines: seq<string>, i: nat, decode: string -> Option<Record>)
    requires i < |lines|
    ensures Plan(lines[..i + 1], decode) == Next(Plan(lines[..i], decode), lines[i], i, decode)
  {
    assert lines[..i + 1][..i] == lines[..i];
  }

  /** The library after a run of upserts, oldest first; a later upsert of the same key wins. */
  function UpsertAll(store: map<string, Payload>, es: seq<SeedEntry>, weight: real, digest: string -> string)
    : (r: map<string, Payload>)
    decreases |es|
    ensures store.Keys <= r.Keys
    ensures forall k | 0 <= k < |es| :: PointKey(es[k].name, digest(es[k].code)) in r
  {
    if es == [] then store
    else
      var s := UpsertAll(store, es[..|es| - 1], weight, digest);
      var e := es[|es| - 1];
      assert forall k | 0 <= k < |es| - 1 :: es[..|es| - 1][k] == es[k];
      s[PointKey(e.name, digest(e.code)) := FreshPayload(e.name, e.description, e.ports, e.code, weight, e.tags, digest(e.code))]
  }

  /**
   * `import_verilogEval_jsonl`: upserts one entry per line that gives one and returns how many;
   * a line that cannot be decoded stops the import with an error, after the upserts before it.
   */
  method ImportVerilogEval(lib: Library, lines: seq<string>, decode: string -> Option<Record>, defaultWeight: real)
    returns (r: Result<nat, nat>)
    modifies lib
    ensures var plan := Plan(lines, decode);
      lib.store == UpsertAll(old(lib.store), plan.entries, defaultWeight, lib.digest)
      && r == if plan.failedAt.Some? then Err(plan.failedAt.value) else Ok(|plan.entries|)
  {
    var store0 := lib.store;
    var count := 0;
    var i := 0;
    while i < |lines|
      invariant 0 <= i <= |lines|
      invariant Plan(lines[..i], decode).failedAt.None?
      invariant count == |Plan(lines[..i], decode).entries|
      invariant lib.store == UpsertAll(store0, Plan(lines[..i], decode).entries, defaultWeight, lib.digest)
    {
      PlanStep(lines, i, decode);
      ghost var entries := Plan(lines[..i], decode).entries;
      var stop, added := ImportLine(lib, lines[i], decode, defaultWeight);
      if stop {
        PlanStopped(lines, i + 1, decode);
        return Err(i);
      }
      UpsertAllAppend(store0, entries, Added(lines[i], decode), defaultWeight, lib.digest);
      count := count + added;
      i := i + 1;
    }
    assert lines[..i] == lines;
    return Ok(count);
  }

  /** The body of the import loop for one line. */
  method ImportLine(lib: Library, rawLine: string, decode: string -> Option<Record>, weight: real)
    returns (stop: bool, added: nat)
    modifies lib
    ensures stop == Stops(rawLine, decode) && added == |Added(rawLine, decode)|
    ensures lib.store == UpsertAll(old(lib.store), Added(rawLine, decode), weight, lib.digest)
  {
    var line := Strip(rawLine);
    if line == [] {
      return false, 0;
    }
    var rec := decode(line);
    if rec.None? {
      return true, 0;
    }
    var taskId := FieldOr(rec.value.taskId, "unknown");
    var prompt := FieldOr(rec.value.prompt, "");
    var code := FieldOr(rec.value.solution, "");
    if prompt == "" || code == "" {
      return false, 0;
    }
    var moduleName, ports := ParsePromptHeader(prompt);
    var entry := SeedEntry(UniqueName(taskId, moduleName), SeedDescription(taskId, moduleName), ports, code,
                           ["verilogEval", taskId]);
    assert Added(rawLine, decode) == [entry];
    UpsertAllStep(lib.store, [], entry, weight, lib.digest);
    var _ := lib.Upsert(entry.name, entry.description, entry.ports, entry.code, weight, entry.tags);
    return false, 1;
  }

  /** One more upsert at the end of a run. */
  lemma UpsertAllStep(store: map<string, Payload>, es: seq<SeedEntry>, e: SeedEntry, weight: real, digest: string -> string)
    ensures UpsertAll(store, es + [e], weight, digest)
      == UpsertAll(store, es, weight, digest)[PointKey(e.name, digest(e.code)) :=
           FreshPayload(e.name, e.description, e.ports, e.code, weight, e.tags, digest(e.code))]
  {
    assert (es + [e])[..|es|] == es;
  }

  /** Upserting two runs one after the other is upserting them joined. */
  lemma {:induction false} UpsertAllAppend(store: map<string, Payload>, es: seq<SeedEntry>, more: seq<SeedEntry>,
                                           weight: real, digest: string -> string)
    ensures UpsertAll(store, es + more, weight, digest) == UpsertAll(UpsertAll(store, es, weight, digest), more, weight, digest)
    decreases |more|
  {
    if more == [] {
      assert es + more == es;
    } else {
      var last := more[|more| - 1];
      var init := more[..|more| - 1];
      assert es + more == (es + init) + [last];
      assert more == init + [last];
      UpsertAllAppend(store, es, init, weight, digest);
      UpsertAllStep(store, es + init, last, weight, digest);
      UpsertAllStep(UpsertAll(store, es, weight, digest), init, last, weight, digest);
    }
  }
}
