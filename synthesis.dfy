/**
 * The driver's synthesis loop. Modules are built leaves first. For each module the driver
 * retrieves a library entry, then asks the generator for code up to ten times, feeding back
 * the previous compiler message. It validates the bundle of accepted code plus the candidate
 * and commits accepted code to the bundle and to the library.
 *
 * The generator's completion request, the bundle validator, the library's similarity search,
 * and the interface read from each module's sketch file are the oracles `complete`, `validate`,
 * `search` and `iface`.
 */
module Synthesis {
  import opened Base
  import opened Text
  import opened SvHeader
  import opened Hierarchy
  import opened WeightPolicy
  import opened Retrieval
  import opened Generator

  /** Generation attempts per module. */
  const MaxRetries: nat := 10

  /** How much of the previous compiler message is fed back. */
  const FeedbackLimit: nat := 700

  /** The score a library hit must reach. */
  const RetrievalThreshold: real := 0.35

  /** The bundle validator: accepted or not, and the compiler's message. */
  type Validator = map<string, string> -> (bool, string)

  type Completion = (Request, nat) -> Option<string>

  // ---- the child headers the driver hands to the generator --------------------------------

  /** The driver's `child_headers`: each child with accepted code whose header is non-empty,
      keyed by name in order of first appearance. */
  function DemoChildHeaders(children: seq<string>, accum: map<string, string>, header: string -> string): (r: Entries)
    ensures DistinctKeys(r) && |r| <= |children|
    ensures forall i | 0 <= i < |r| :: r[i].0 in children
  {
    if children == [] then []
    else
      var init := children[..|children| - 1];
      var ch := children[|children| - 1];
      var d := DemoChildHeaders(init, accum, header);
      assert forall x | x in init :: x in children;
      if ch in accum && header(accum[ch]) != "" then Put(d, ch, header(accum[ch])) else d
  }

  /** Every entry of `d` is a child with accepted code, keyed to that code's non-empty header. */
  predicate GoodEntries(d: Entries, accum: map<string, string>, header: string -> string) {
    forall i | 0 <= i < |d| :: d[i].0 in accum && d[i].1 == header(accum[d[i].0]) && d[i].1 != ""
  }

  /**
   * The driver's headers are exactly those of the accepted children: every entry is a child with
   * accepted code and its non-empty header, and every such child has an entry.
   */
  lemma {:induction false} DemoChildHeadersExact(children: seq<string>, accum: map<string, string>, header: string -> string)
    ensures var d := DemoChildHeaders(children, accum, header);
      GoodEntries(d, accum, header)
      && forall c | c in children && c in accum && header(accum[c]) != "" :: c in KeysOf(d)
    decreases |children|
  {
    if children != [] {
      var n := |children| - 1;
      var init, ch := children[..n], children[n];
      assert children == init + [ch];
      DemoChildHeadersExact(init, accum, header);
      var d := DemoChildHeaders(init, accum, header);
      if ch in accum && header(accum[ch]) != "" {
        var r := Put(d, ch, header(accum[ch]));
        assert r == DemoChildHeaders(children, accum, header);
        forall i | 0 <= i < |r|
          ensures r[i].0 in accum && r[i].1 == header(accum[r[i].0]) && r[i].1 != ""
        {
          if i < |d| && d[i].0 != ch {
            assert r[i] == d[i];
          }
        }
        forall c | c in children && c in accum && header(accum[c]) != ""
          ensures c in KeysOf(r)
        {
          if c in KeysOf(d) {
            var j :| 0 <= j < |d| && KeysOf(d)[j] == c;
            assert KeysOf(r)[j] == c;
          } else {
            assert c == ch;
            assert KeysOf(r)[|d|] == c;
          }
        }
      }
    }
  }

  /** The loop that builds `child_headers`. */
  method ChildHeaders(children: seq<string>, accum: map<string, string>) returns (d: Entries)
    ensures d == DemoChildHeaders(children, accum, HeaderFromCode)
  {
    d := [];
    for i := 0 to |children|
      invariant d == DemoChildHeaders(children[..i], accum, HeaderFromCode)
    {
      var ch := children[i];
      assert children[..i + 1][..i] == children[..i];
      if ch in accum {
        var hdr := HeaderFromCode(accum[ch]);
        if hdr != "" {
          d := Put(d, ch, hdr);
        }
      }
    }
    assert children[..|children|] == children;
  }

  /** A key new to a dictionary goes last. */
  lemma PutNew(d: Entries, k: string, v: string)
    requires DistinctKeys(d) && forall i | 0 <= i < |d| :: d[i].0 != k
    ensures Put(d, k, v) == d + [(k, v)]
  {
    assert k !in KeysOf(d);
  }

  lemma BlocksAppend(d: Entries, k: string, v: string)
    ensures Blocks(d + [(k, v)]) == Blocks(d) + [ChildBlock(k, v)]
  {
  }

  /**
   * For a list of distinct children, the blocks the driver's headers give are those the module
   * generator's own context collects, in the same order.
   */
  lemma {:induction false} DemoBlocksMatchContext(children: seq<string>, accum: map<string, string>, header: string -> string)
    requires NoDup(children) && header("") == ""
    ensures Blocks(DemoChildHeaders(children, accum, header)) == ContextBlocks(children, accum, header)
    decreases |children|
  {
    if children != [] {
      var n := |children| - 1;
      var init, ch := children[..n], children[n];
      assert NoDup(init);
      DemoBlocksMatchContext(init, accum, header);
      var d := DemoChildHeaders(init, accum, header);
      assert ContextBlocks(children, accum, header)
          == ContextBlocks(init, accum, header) + (if AcceptedHeader(accum, ch, header) != "" then [ChildBlock(ch, AcceptedHeader(accum, ch, header))] else []);
      if ch in accum && header(accum[ch]) != "" {
        assert forall i | 0 <= i < |d| :: d[i].0 != ch by {
          assert forall i | 0 <= i < |d| :: d[i].0 in init;
          assert forall j | 0 <= j < n :: init[j] != ch;
        }
        PutNew(d, ch, header(accum[ch]));
        BlocksAppend(d, ch, header(accum[ch]));
      }
    }
  }

  /** So the text the generator formats from the driver's headers is the module context less its final line break. */
  lemma DemoHeadersMatchContext(children: seq<string>, accum: map<string, string>)
    requires NoDup(children)
    ensures var d := DemoChildHeaders(children, accum, HeaderFromCode);
      ChildHeadersText(d) + (if d == [] then "" else "\n") == ContextText(ContextBlocks(children, accum, HeaderFromCode))
  {
    assert MatchHeader("").None?;
    DemoBlocksMatchContext(children, accum, HeaderFromCode);
  }

  // ---- one module's repair loop -------------------------------------------------------------

  const FeedbackIntro := "\nPrevious compilation failed. Please correct the following syntax issues:\n```text\n"

  /** The extra notes for the next attempt: the head of the previous compiler message, fenced; nothing before the first failure. */
  function Feedback(msgPrev: string): (r: string)
    ensures r == "" <==> msgPrev == ""
    ensures |r| <= |FeedbackIntro| + FeedbackLimit + 4
    ensures msgPrev != "" ==> Contains(r, Take(msgPrev, FeedbackLimit))
  {
    if msgPrev == "" then ""
    else
      var r := FeedbackIntro + Take(msgPrev, FeedbackLimit) + "\n```";
      assert At(r, |FeedbackIntro|, Take(msgPrev, FeedbackLimit)) by {
        assert r[|FeedbackIntro|..|FeedbackIntro| + |Take(msgPrev, FeedbackLimit)|] == Take(msgPrev, FeedbackLimit);
      }
      ContainsIff(r, Take(msgPrev, FeedbackLimit));
      r
  }

  /** A message that blames only the simulator's missing array-slice support is let through. */
  predicate SoftPass(msg: string) {
    Contains(msg, "sorry:") && Contains(msg, "array")
  }

  /** The validator accepts a bundle, outright or softly. */
  predicate Accepted(v: (bool, string)) {
    v.0 || SoftPass(v.1)
  }

  /** Everything one module's attempts depend on. */
  datatype ModuleJob = ModuleJob(
    name: string, description: string, interfaceSig: seq<string>,
    childHeaders: Entries, retrieved: Retrieved, accum: map<string, string>)

  /** How one module's attempts ended: accepted with that code, or out of attempts. */
  datatype Outcome = Outcome(ok: bool, finalCode: Option<string>, attempts: nat)

  /** The request of the attempt after message `msgPrev`: a hit passes its code and weight along. */
  function AttemptRequest(job: ModuleJob, msgPrev: string): (r: Request)
    ensures r.extraNotes == Feedback(msgPrev)
    ensures r.reference.Some? ==> job.retrieved.hit
  {
    var hit := job.retrieved.hit;
    RequestFor(job.name, job.description, job.interfaceSig, job.childHeaders,
               if hit then Some(job.retrieved.code) else None,
               if hit && job.retrieved.meta.LibraryHit? then Some(job.retrieved.meta.weight) else None,
               Some(Feedback(msgPrev)), None, [])
  }

  /**
   * The attempts from `attempt` on: generate, validate the bundle with the candidate, stop at the
   * first accepted candidate, otherwise feed its message to the next attempt.
   */
  function Repair(job: ModuleJob, apiKey: string, complete: Completion, validate: Validator,
                  attempt: nat, msgPrev: string): (r: Result<Outcome, GenError>)
    requires attempt <= MaxRetries
    decreases MaxRetries - attempt
    ensures r.Ok? ==> attempt <= r.value.attempts <= MaxRetries
    ensures r.Ok? ==> (r.value.ok <==> r.value.finalCode.Some?)
    ensures r.Ok? && r.value.ok ==>
      attempt < r.value.attempts && Accepted(validate(job.accum[job.name := r.value.finalCode.value]))
    ensures r.Ok? && !r.value.ok ==> r.value.attempts == MaxRetries
  {
    if attempt == MaxRetries then Ok(Outcome(false, None, attempt))
    else match Generate(apiKey, AttemptRequest(job, msgPrev), DefaultMaxRetries, complete)
      case Err(e) => Err(e)
      case Ok(code) =>
        var v := validate(job.accum[job.name := code]);
        if Accepted(v) then Ok(Outcome(true, Some(code), attempt + 1))
        else Repair(job, apiKey, complete, validate, attempt + 1, v.1)
  }

  /** An attempt whose candidate is accepted is the last one. */
  lemma AcceptedStops(job: ModuleJob, apiKey: string, complete: Completion, validate: Validator,
                      attempt: nat, msgPrev: string, code: string)
    requires attempt < MaxRetries
    requires Generate(apiKey, AttemptRequest(job, msgPrev), DefaultMaxRetries, complete) == Ok(code)
    requires Accepted(validate(job.accum[job.name := code]))
    ensures Repair(job, apiKey, complete, validate, attempt, msgPrev) == Ok(Outcome(true, Some(code), attempt + 1))
  {
  }

  /** A rejected attempt hands its message, cut to 700 characters, to the next attempt's notes. */
  lemma RejectedFeedsBack(job: ModuleJob, apiKey: string, complete: Completion, validate: Validator,
                          attempt: nat, msgPrev: string, code: string)
    requires attempt < MaxRetries
    requires Generate(apiKey, AttemptRequest(job, msgPrev), DefaultMaxRetries, complete) == Ok(code)
    requires !Accepted(validate(job.accum[job.name := code]))
    ensures var msg := validate(job.accum[job.name := code]).1;
      Repair(job, apiKey, complete, validate, attempt, msgPrev) == Repair(job, apiKey, complete, validate, attempt + 1, msg)
      && (msg != "" ==> Contains(AttemptRequest(job, msg).extraNotes, Take(msg, FeedbackLimit)))
  {
  }

  /** One step of `Repair`, given the attempt's generation and validation. */
  lemma RepairStep(job: ModuleJob, apiKey: string, complete: Completion, validate: Validator,
                   attempt: nat, msgPrev: string, gen: Result<string, GenError>, v: (bool, string))
    requires attempt < MaxRetries
    requires gen == Generate(apiKey, AttemptRequest(job, msgPrev), DefaultMaxRetries, complete)
    requires gen.Ok? ==> v == validate(job.accum[job.name := gen.value])
    ensures gen.Err? ==> Repair(job, apiKey, complete, validate, attempt, msgPrev) == Err(gen.error)
    ensures gen.Ok? && Accepted(v) ==>
      Repair(job, apiKey, complete, validate, attempt, msgPrev) == Ok(Outcome(true, Some(gen.value), attempt + 1))
    ensures gen.Ok? && !Accepted(v) ==>
      Repair(job, apiKey, complete, validate, attempt, msgPrev) == Repair(job, apiKey, complete, validate, attempt + 1, v.1)
  {
  }

  /**
   * One attempt: generate with the feedback of `msgPrev`, then validate the bundle with the
   * candidate. What the attempt returns is one step of `Repair`.
   */
  method Attempt(job: ModuleJob, apiKey: string, complete: Completion, validate: Validator,
                 ghost attempt: nat, msgPrev: string)
    returns (gen: Result<string, GenError>, v: (bool, string))
    requires attempt < MaxRetries
    ensures gen.Err? ==> Repair(job, apiKey, complete, validate, attempt, msgPrev) == Err(gen.error)
    ensures gen.Ok? && Accepted(v) ==>
      Repair(job, apiKey, complete, validate, attempt, msgPrev) == Ok(Outcome(true, Some(gen.value), attempt + 1))
    ensures gen.Ok? && !Accepted(v) ==>
      Repair(job, apiKey, complete, validate, attempt, msgPrev) == Repair(job, apiKey, complete, validate, attempt + 1, v.1)
  {
    var hit := job.retrieved.hit;
    var requests;
    gen, requests := ModuleGeneratorLlm(apiKey, job.name, job.description, job.interfaceSig, job.childHeaders,
                                 if hit then Some(job.retrieved.code) else None,
                                 if hit && job.retrieved.meta.LibraryHit? then Some(job.retrieved.meta.weight) else None,
                                 Some(Feedback(msgPrev)), None, [], DefaultMaxRetries, complete);
    v := (false, "");
    if gen.Ok? {
      var trial := job.accum[job.name := gen.value];
      v := validate(trial);
    }
    RepairStep(job, apiKey, complete, validate, attempt, msgPrev, gen, v);
  }

  /** The driver's `while` loop for one module. */
  method RepairLoop(job: ModuleJob, apiKey: string, complete: Completion, validate: Validator)
    returns (r: Result<Outcome, GenError>)
    ensures r == Repair(job, apiKey, complete, validate, 0, "")
  {
    var attempt: nat := 0;
    var msgPrev := "";
    ghost var target := Repair(job, apiKey, complete, validate, 0, "");
    while attempt < MaxRetries
      invariant attempt <= MaxRetries
      invariant target == Repair(job, apiKey, complete, validate, attempt, msgPrev)
      decreases MaxRetries - attempt
    {
      var gen, v := Attempt(job, apiKey, complete, validate, attempt, msgPrev);
      attempt := attempt + 1;
      if gen.Err? {
        return Err(gen.error);
      }
      // accepted outright, or a soft pass
      if Accepted(v) {
        return Ok(Outcome(true, Some(gen.value), attempt));
      }
      msgPrev := v.1;
    }
    r := Ok(Outcome(false, None, attempt));
  }

  // ---- committing a module ------------------------------------------------------------------

  /** Code is committed only when accepted and non-empty. */
  predicate Commits(o: Outcome) {
    o.ok && o.finalCode.Some? && o.finalCode.value != ""
  }

  /** The weight new library code gets: the hit's weight, or the default after a miss. */
  function UpsertWeight(ret: Retrieved): (w: real)
    ensures !ret.hit ==> w == DefaultWeight
    ensures ret.hit && ret.meta.LibraryHit? ==> w == ret.meta.weight
  {
    if ret.hit && ret.meta.LibraryHit? then ret.meta.weight else DefaultWeight
  }

  /** The tag new library code gets: `refined` after a hit, `generated` after a miss. */
  function UpsertTag(ret: Retrieved): (t: string)
    ensures ret.hit ==> t == "refined"
    ensures !ret.hit ==> t == "generated"
  {
    if ret.hit then "refined" else "generated"
  }

  /** The library entry a hit came from, or "" when there is none. */
  function HitPoint(ret: Retrieved): string {
    if ret.hit && ret.meta.LibraryHit? then ret.meta.pointId else ""
  }

  /** The store after the outcome is reported against the hit's entry; nothing changes without one. */
  function Reported(store: map<string, Payload>, ret: Retrieved, success: bool): (r: map<string, Payload>)
    ensures r.Keys == store.Keys
    ensures forall id | id in store && id != HitPoint(ret) :: r[id] == store[id]
    ensures HitPoint(ret) == "" ==> r == store
    ensures HitPoint(ret) != "" && HitPoint(ret) in store ==>
      r[HitPoint(ret)] == Update(store[HitPoint(ret)], success, false)
  {
    var pid := HitPoint(ret);
    if pid != "" && pid in store then store[pid := Update(store[pid], success, false)] else store
  }

  /** The library after a commit step, as Commit leaves it: committed code is written under its
      key and the hit rewarded; otherwise the hit is penalised. */
  function Committed(store: map<string, Payload>, digest: string -> string, job: ModuleJob, o: Outcome): (r: map<string, Payload>)
    ensures store.Keys <= r.Keys
    ensures Commits(o) ==> PointKey(job.name, digest(o.finalCode.value)) in r
    ensures !Commits(o) ==> r.Keys == store.Keys
    ensures Commits(o) && PointKey(job.name, digest(o.finalCode.value)) != HitPoint(job.retrieved) ==>
      var code := o.finalCode.value;
      r[PointKey(job.name, digest(code))]
        == FreshPayload(job.name, job.description, job.interfaceSig, code,
                        UpsertWeight(job.retrieved), [UpsertTag(job.retrieved)], digest(code))
    ensures var pid := HitPoint(job.retrieved);
      pid != "" && pid in store && (!Commits(o) || PointKey(job.name, digest(o.finalCode.value)) != pid) ==>
        r[pid] == Update(store[pid], Commits(o), false)
    ensures Commits(o) && PointKey(job.name, digest(o.finalCode.value)) == HitPoint(job.retrieved) ==>
      var code := o.finalCode.value;
      r[HitPoint(job.retrieved)]
        == Update(FreshPayload(job.name, job.description, job.interfaceSig, code,
                               UpsertWeight(job.retrieved), [UpsertTag(job.retrieved)], digest(code)), true, false)
    ensures forall id | id in store && id != HitPoint(job.retrieved)
                        && (Commits(o) ==> id != PointKey(job.name, digest(o.finalCode.value))) :: r[id] == store[id]
  {
    if Commits(o) then
      var code := o.finalCode.value;
      Reported(store[PointKey(job.name, digest(code)) :=
                 FreshPayload(job.name, job.description, job.interfaceSig, code,
                              UpsertWeight(job.retrieved), [UpsertTag(job.retrieved)], digest(code))],
               job.retrieved, true)
    else Reported(store, job.retrieved, false)
  }

  /** The commit step: accepted code enters the bundle and the library, and the hit is rewarded;
      otherwise only the hit is penalised. */
  method Commit(lib: Library, job: ModuleJob, o: Outcome) returns (accum: map<string, string>)
    modifies lib
    ensures accum == if Commits(o) then job.accum[job.name := o.finalCode.value] else job.accum
    ensures lib.store == Committed(old(lib.store), lib.digest, job, o)
  {
    var ret := job.retrieved;
    var pid := HitPoint(ret);
    if o.ok && o.finalCode.Some? && o.finalCode.value != "" {
      var code := o.finalCode.value;
      accum := job.accum[job.name := code];
      var id := lib.Upsert(job.name, job.description, job.interfaceSig, code,
                          if !ret.hit then DefaultWeight else UpsertWeight(ret),
                          [if !ret.hit then "generated" else "refined"]);
      if ret.hit && pid != "" {
        lib.UpdateWeight(pid, true, false);
      }
    } else {
      accum := job.accum;
      if ret.hit && pid != "" {
        lib.UpdateWeight(pid, false, false);
      }
    }
  }

  // ---- the whole run ------------------------------------------------------------------------

  /** Why a run stops early. */
  datatype RunError =
    | MissingModule(name: string)
    | RetrievalFailed(message: string)
    | GenerationFailed(cause: GenError)

  /** The accepted code per module and each scheduled module's outcome, in build order. */
  datatype RunResult = RunResult(order: seq<string>, accum: map<string, string>, outcomes: seq<Outcome>)

  /** What building one module gives: the bundle after it, its outcome, and what retrieval found. */
  datatype Step = Step(accum: map<string, string>, outcome: Outcome, retrieved: Retrieved)

  /** The job the driver runs for a module after retrieval. */
  function JobFor(mname: string, spec: ModuleSpec, sig: seq<string>, accum: map<string, string>, ret: Retrieved): ModuleJob {
    ModuleJob(mname, spec.description, sig, DemoChildHeaders(spec.children, accum, HeaderFromCode), ret, accum)
  }

  /**
   * One module of the run on values: retrieval, the repair attempts on the bundle `accum`, and the
   * commit, with the library store each leaves. An accepted module's code passed validation
   * together with the bundle before it, and the library never loses an entry.
   */
  function BuildSpec(store: map<string, Payload>, digest: string -> string, mname: string, spec: ModuleSpec,
                     sig: seq<string>, accum: map<string, string>, apiKey: string, complete: Completion,
                     validate: Validator, search: Search): (r: (Result<Step, RunError>, map<string, Payload>))
    ensures store.Keys <= r.1.Keys
    ensures r.0.Ok? ==> var o := r.0.value.outcome;
      o.attempts <= MaxRetries
      && (Commits(o) ==> r.0.value.accum == accum[mname := o.finalCode.value]
                         && Accepted(validate(accum[mname := o.finalCode.value])))
      && (!Commits(o) ==> r.0.value.accum == accum)
  {
    var (ret, s1) := Retrieve(store, mname, spec.description, sig, RetrievalThreshold, DefaultTopK, search);
    if ret.Err? then (Err(RetrievalFailed(ret.error)), s1)
    else
      var job := JobFor(mname, spec, sig, accum, ret.value);
      var rep := Repair(job, apiKey, complete, validate, 0, "");
      if rep.Err? then (Err(GenerationFailed(rep.error)), s1)
      else
        var o := rep.value;
        (Ok(Step(if Commits(o) then accum[mname := o.finalCode.value] else accum, o, ret.value)),
         Committed(s1, digest, job, o))
  }

  /** One module of the run: retrieve, build its child headers, run its attempts, commit. */
  method BuildModule(lib: Library, mname: string, spec: ModuleSpec, sig: seq<string>, accum: map<string, string>,
                     apiKey: string, complete: Completion, validate: Validator, search: Search)
    returns (r: Result<Step, RunError>)
    modifies lib
    ensures (r, lib.store) == BuildSpec(old(lib.store), lib.digest, mname, spec, sig, accum, apiKey, complete, validate, search)
    ensures r.Ok? ==> var o := r.value.outcome;
      o == Repair(JobFor(mname, spec, sig, accum, r.value.retrieved), apiKey, complete, validate, 0, "").value
      && o.attempts <= MaxRetries
      && (Commits(o) ==> r.value.accum == accum[mname := o.finalCode.value]
                         && Accepted(validate(accum[mname := o.finalCode.value])))
      && (!Commits(o) ==> r.value.accum == accum)
  {
    var retrieval := lib.RetrieveOrGenerate(mname, spec.description, sig, RetrievalThreshold, DefaultTopK, search);
    if retrieval.Err? {
      return Err(RetrievalFailed(retrieval.error));
    }
    var childHeaders := ChildHeaders(spec.children, accum);
    var job := ModuleJob(mname, spec.description, sig, childHeaders, retrieval.value, accum);
    assert job == JobFor(mname, spec, sig, accum, retrieval.value);
    var outcome := RepairLoop(job, apiKey, complete, validate);
    if outcome.Err? {
      return Err(GenerationFailed(outcome.error));
    }
    var acc := Commit(lib, job, outcome.value);
    r := Ok(Step(acc, outcome.value, retrieval.value));
  }

  /** The bundle after the modules of `order` ended with `outcomes`: each committed module with its code. */
  function Bundle(order: seq<string>, outcomes: seq<Outcome>): (b: map<string, string>)
    requires |outcomes| == |order|
    ensures forall m | m in b :: m in order && b[m] != ""
  {
    if order == [] then map[]
    else
      var n := |order| - 1;
      var b := Bundle(order[..n], outcomes[..n]);
      assert forall m | m in order[..n] :: m in order;
      if Commits(outcomes[n]) then b[order[n] := outcomes[n].finalCode.value] else b
  }

  /** Where a run on values ends: the bundle and outcomes, or the error that stopped it, and the
      library store. */
  type RunState = (Result<(map<string, string>, seq<Outcome>), RunError>, map<string, Payload>)

  /**
   * The modules `order[i..]` built on values, after the earlier modules left the bundle `accum`,
   * the outcomes `outcomes` and the library `store`. The first error stops the run.
   */
  function RunFrom(store: map<string, Payload>, digest: string -> string, order: seq<string>, i: nat,
                   accum: map<string, string>, outcomes: seq<Outcome>, mods: map<string, ModuleSpec>,
                   iface: string -> seq<string>, apiKey: string, complete: Completion, validate: Validator,
                   search: Search): (r: RunState)
    requires i <= |order| && forall k | 0 <= k < |order| :: order[k] in mods
    ensures store.Keys <= r.1.Keys
    ensures r.0.Ok? ==> |r.0.value.1| == |outcomes| + |order| - i
    decreases |order| - i
  {
    if i == |order| then (Ok((accum, outcomes)), store)
    else
      var mname := order[i];
      var (step, s2) := BuildSpec(store, digest, mname, mods[mname], iface(mname), accum, apiKey, complete, validate, search);
      if step.Err? then (Err(step.error), s2)
      else RunFrom(s2, digest, order, i + 1, step.value.accum, outcomes + [step.value.outcome],
                   mods, iface, apiKey, complete, validate, search)
  }

  /**
   * The first `i` modules of `order` are built: one outcome each, the bundle holds exactly the
   * committed ones with their code, and each committed module passed validation together with the
   * bundle of the modules before it.
   */
  predicate Built(order: seq<string>, i: nat, accum: map<string, string>, outcomes: seq<Outcome>, validate: Validator)
    requires i <= |order|
  {
    |outcomes| == i
    && accum == Bundle(order[..i], outcomes)
    && (forall k | 0 <= k < i :: outcomes[k].attempts <= MaxRetries)
    && (forall k | 0 <= k < i ::
          (order[k] in accum <==> Commits(outcomes[k]))
          && (Commits(outcomes[k]) ==> accum[order[k]] == outcomes[k].finalCode.value))
    && (forall k | 0 <= k < i :: Commits(outcomes[k]) ==>
          Accepted(validate(Bundle(order[..k], outcomes[..k])[order[k] := outcomes[k].finalCode.value])))
  }

  /** The bundle after one more module: its code if it committed, nothing new otherwise. */
  lemma BundleExtend(order: seq<string>, i: nat, outcomes: seq<Outcome>, o: Outcome)
    requires i < |order| && |outcomes| == i
    ensures Bundle(order[..i + 1], outcomes + [o])
         == if Commits(o) then Bundle(order[..i], outcomes)[order[i] := o.finalCode.value] else Bundle(order[..i], outcomes)
  {
    assert order[..i + 1][..i] == order[..i] && (outcomes + [o])[..i] == outcomes;
  }

  /** The validation gate of the earlier modules survives one more module. */
  lemma GateExtend(order: seq<string>, i: nat, outcomes: seq<Outcome>, validate: Validator, o: Outcome)
    requires i < |order| && |outcomes| == i
    requires forall k | 0 <= k < i :: Commits(outcomes[k]) ==>
      Accepted(validate(Bundle(order[..k], outcomes[..k])[order[k] := outcomes[k].finalCode.value]))
    requires Commits(o) ==> Accepted(validate(Bundle(order[..i], outcomes)[order[i] := o.finalCode.value]))
    ensures var outs := outcomes + [o]; forall k | 0 <= k < i + 1 :: Commits(outs[k]) ==>
      Accepted(validate(Bundle(order[..k], outs[..k])[order[k] := outs[k].finalCode.value]))
  {
    var outs := outcomes + [o];
    forall k | 0 <= k < i + 1
      ensures Commits(outs[k]) ==> Accepted(validate(Bundle(order[..k], outs[..k])[order[k] := outs[k].finalCode.value]))
    {
      if k < i {
        assert outs[..k] == outcomes[..k] && outs[k] == outcomes[k];
      } else {
        assert outs[..k] == outcomes;
      }
    }
  }

  /** Building the next module of a duplicate-free order keeps the earlier modules as they were. */
  lemma BuiltStep(order: seq<string>, i: nat, accum: map<string, string>, outcomes: seq<Outcome>,
                  validate: Validator, acc: map<string, string>, o: Outcome)
    requires NoDup(order) && i < |order| && Built(order, i, accum, outcomes, validate)
    requires o.attempts <= MaxRetries
    requires Commits(o) ==> acc == accum[order[i] := o.finalCode.value]
                            && Accepted(validate(accum[order[i] := o.finalCode.value]))
    requires !Commits(o) ==> acc == accum
    ensures Built(order, i + 1, acc, outcomes + [o], validate)
  {
    assert order[i] !in accum by {
      assert forall k | 0 <= k < i :: order[k] != order[i];
    }
    BundleExtend(order, i, outcomes, o);
    GateExtend(order, i, outcomes, validate, o);
  }

  /**
   * The synthesis run: schedule the hierarchy under `top`, then build each module in turn. The
   * accepted code of a module is exactly its last accepted candidate, it passed validation with the
   * modules committed before it, a module that failed is never in the bundle, and no module takes
   * more than ten attempts. The library ends as the run on values leaves it, with every entry it
   * started with.
   */
  method Run(lib: Library, top: string, mods: map<string, ModuleSpec>, iface: string -> seq<string>,
             apiKey: string, complete: Completion, validate: Validator, search: Search)
    returns (r: Result<RunResult, RunError>)
    modifies lib
    ensures r.Ok? ==> Schedule(mods, top) == Ok(r.value.order) && |r.value.outcomes| == |r.value.order|
    ensures r.Ok? ==> forall i | 0 <= i < |r.value.outcomes| :: r.value.outcomes[i].attempts <= MaxRetries
    ensures r.Ok? ==> forall i | 0 <= i < |r.value.order| ::
      (r.value.order[i] in r.value.accum <==> Commits(r.value.outcomes[i]))
      && (Commits(r.value.outcomes[i]) ==> r.value.accum[r.value.order[i]] == r.value.outcomes[i].finalCode.value)
    ensures r.Ok? ==> forall m | m in r.value.accum :: m in r.value.order && r.value.accum[m] != ""
    ensures r.Ok? ==> r.value.accum == Bundle(r.value.order, r.value.outcomes)
    ensures r.Ok? ==> var order, outs := r.value.order, r.value.outcomes;
      forall i | 0 <= i < |order| :: Commits(outs[i]) ==>
        Accepted(validate(Bundle(order[..i], outs[..i])[order[i] := outs[i].finalCode.value]))
    ensures Schedule(mods, top).Err? ==> r == Err(MissingModule(Schedule(mods, top).error)) && lib.store == old(lib.store)
    ensures Schedule(mods, top).Ok? ==> var order := Schedule(mods, top).value;
      var (res, store) := RunFrom(old(lib.store), lib.digest, order, 0, map[], [], mods, iface, apiKey, complete, validate, search);
      lib.store == store
      && (res.Err? ==> r == Err(res.error))
      && (res.Ok? ==> r == Ok(RunResult(order, res.value.0, res.value.1)))
    ensures old(lib.store).Keys <= lib.store.Keys
  {
    var schedule := Schedule(mods, top);
    if schedule.Err? {
      return Err(MissingModule(schedule.error));
    }
    var order := schedule.value;
    var accum: map<string, string> := map[];
    var outcomes: seq<Outcome> := [];
    ghost var target := RunFrom(lib.store, lib.digest, order, 0, map[], [], mods, iface, apiKey, complete, validate, search);
    for i := 0 to |order|
      invariant Built(order, i, accum, outcomes, validate)
      invariant RunFrom(lib.store, lib.digest, order, i, accum, outcomes, mods, iface, apiKey, complete, validate, search) == target
    {
      var mname := order[i];
      var step := BuildModule(lib, mname, mods[mname], iface(mname), accum, apiKey, complete, validate, search);
      if step.Err? {
        return Err(step.error);
      }
      BuiltStep(order, i, accum, outcomes, validate, step.value.accum, step.value.outcome);
      accum := step.value.accum;
      outcomes := outcomes + [step.value.outcome];
    }
    assert order[..|order|] == order;
    r := Ok(RunResult(order, accum, outcomes));
  }
}
