# Hierarchical synthesis engine — a Dafny model

This project models the core of a pipeline that writes a hardware design one SystemVerilog module
at a time, leaves first. The Dafny modules below follow the pipeline's own parts.

- **Hierarchy**: the driver's build order. This is `postorder_modules`, a depth-first post-order
  over the module index that marks a name as seen before visiting its children. The module also
  holds the task manager's parent inference. Termination is proved on any finite index, cycles
  included. In an acyclic hierarchy every child comes before its parent and every reachable name
  appears exactly once. A corrected `Schedule` refuses a child name that has no entry in the index.
- **Synthesis**: the driver's loop over the build order, with these steps for each module:
  1. retrieve a library entry;
  2. collect the headers of the children already accepted;
  3. generate, validate the bundle of accepted code plus the candidate, and repair, with at most
     ten attempts and the previous compiler message fed back in its first 700 characters. A
     message naming `sorry:` and `array` is a soft pass.
  4. commit accepted code to the bundle and the library, and reinforce the entry the hit came from.
- **WeightPolicy** and **Retrieval**: the weighted code library.
  - Entries are keyed by module name and code digest.
  - Similarity hits are re-ranked by `cosine * weight`, sorted and cut to the top k.
  - A hit-or-miss threshold decides whether the library's code is used.
  - The weight rule: ×1.06 on success, ×0.9 on failure, a reset to 0.5 for a light failing entry,
    and a sticky garbage-collection mark below 0.2. As written, the reset is given on every such
    failure; the documented rule gives it once. The library uses the documented rule (see Findings
    and Left out).
  - The library is a class whose `store` maps point ids to payloads.
- **Ppa**: the heuristic estimator `evaluate_ppa_from_config` and the driver's stub `evaluate_ppa`.
  - The estimator covers PE, DSP, LUT and BRAM counts, bytes per cycle, the frequency estimate and
    power, plus the verdict and its list of violations in check order.
  - The stub gives a frequency and an area from counts in the design text.
- **Generator**: the module generator's pure text handling:
  - the child-header block;
  - the module context;
  - the port text;
  - the request it builds;
  - its bounded retry loop around the completion service.
- **SvHeader**, **PortParse**, **Text**: the string handling the pipeline shares.
  - SvHeader: the `module <name> [#(...)] (...);` header match, and the extraction of the first
    fenced code block in its two variants.
  - PortParse: the port-list parser of the seeding script.
  - Text: Python's `strip`, `find`, `in`, `join`, `split`, `lower`, `count` and slicing.
- **SeedImport**: the one-time import of the VerilogEval JSONL file into the library.
- **Base**: `Option` and `Result`.

The outside world appears as function-valued parameters:
- `complete`: the chat-completion request of attempt `a` for a request, answering with a reply or
  a failure.
- `validate`: the `iverilog` bundle check.
- `search`: the embedding service plus the vector store's nearest-neighbour search.
- `digest`: SHA-1 of the code.
- `decode`: JSON decoding of one line.
- `sqrt`: the square root in the frequency estimate.
- `iface`: the interface read from each module's sketch file.

## Model

| member | source | states |
|---|---|---|
| Hierarchy.PostorderModules | code/demo.py:630-642 | the order is the post-order DFS from `top`: no name twice, `top` last, and every child of a scheduled name scheduled too |
| Hierarchy.Dfs | code/demo.py:634-639 | one `dfs` call on the threaded `order`/`seen` state is exactly one step of the post-order |
| Hierarchy.Step | code/demo.py:635-639 | after a call the name is seen and the seen set has only grown; it terminates on any finite index, cycles included, because each new call marks a name not yet seen |
| Hierarchy.PostorderShape | code/demo.py:632-642 | no duplicates, the top is last, and the order is closed under children |
| Hierarchy.PostorderChildrenFirst | code/demo.py:634-642 | when a rank decreases from each module to its children (no cycle), every child precedes its parent |
| Hierarchy.PostorderReaches | code/demo.py:634-642 | every name reachable from `top` along child links is in the order |
| Hierarchy.DanglingChildScheduled | code/demo.py:637-639 | as written, a child missing from the index is still scheduled (`{top: [x]}` gives `[x, top]`) |
| Hierarchy.Schedule | code/demo.py:786-787 | the order is the post-order of `postorder_modules`, returned only when every scheduled name has an index entry; otherwise the error names a scheduled name with no entry |
| Hierarchy.ScheduleChildrenFirst | code/demo.py:630-642 | in a hierarchy without cycles, the schedule builds every child before its parent |
| Hierarchy.DanglingChildRefused | code/demo.py:787 | the corrected schedule refuses `{top: [x]}` |
| Hierarchy.InferParents | code/demo.py:563-569 | every indexed module's parent is the first module in index order that lists it; `top` has none |
| Hierarchy.ClaimChildren | code/demo.py:564-567 | a listed, indexed child with no parent yet takes this parent; everything else is unchanged |
| WeightPolicy.GcAfter | code/helper/code_retriever.py:171-173 | the mark is set exactly when it was already set or the new weight is below 0.2 |
| WeightPolicy.UpdateAsWritten | code/helper/code_retriever.py:156-181 | the rule as written: the reset is gated only by the call argument; identity fields unchanged and the mark is sticky |
| WeightPolicy.Update | code/helper/code_retriever.py:146-181 | the rule as documented: the reset is also gated by the stored flag; identity fields unchanged and the mark is sticky |
| WeightPolicy.SuccessEffect | code/helper/code_retriever.py:160-162 | success multiplies the weight by 1.06 and adds one success; failures unchanged |
| WeightPolicy.FailureEffect | code/helper/code_retriever.py:163-169 | a light, first-time failure resets the weight to 0.5 without counting; any other failure multiplies by 0.9 and counts one |
| WeightPolicy.WeightMonotone | code/helper/code_retriever.py:160-169 | a positive weight rises on success and falls on a counted failure |
| WeightPolicy.WeightStaysNonNegative | code/helper/code_retriever.py:156-169 | a non-negative weight stays non-negative |
| WeightPolicy.GcSticky | code/helper/code_retriever.py:171-173 | once set, the mark survives every update, under both rules |
| WeightPolicy.SecondChanceSticky | code/helper/code_retriever.py:166 | the stored second-chance flag is never cleared |
| WeightPolicy.Replay | code/helper/code_retriever.py:146-182 | a history of outcomes keeps the entry's identity, and a non-empty history that ends below 0.2 leaves the entry marked |
| WeightPolicy.AtMostOneReset | code/helper/code_retriever.py:147-149 | under the documented rule, an entry gets its reset at most once over any history |
| WeightPolicy.FailuresAfterReset | code/helper/code_retriever.py:167-169 | after the reset, n failures multiply the weight by 0.9^n and count n failures |
| WeightPolicy.TwoSuccesses | code/helper/code_retriever.py:160-162 | 0.5 → 0.53 → 0.5618 |
| WeightPolicy.ResetThenShrink | code/helper/code_retriever.py:163-169 | from 0.25, a failure resets to 0.5 and the next one gives 0.45 |
| WeightPolicy.TenFailuresCollect | code/helper/code_retriever.py:171-173 | under the documented rule, ten failures from 0.25 mark the entry for collection |
| WeightPolicy.AsWrittenFailureNeverCollects | code/helper/code_retriever.py:163-173 | as written, a failure called without the argument never sets the mark, and a light entry always goes back to 0.5 |
| WeightPolicy.AsWrittenFailuresKeepEntry | code/helper/code_retriever.py:163-173 | as written, no run of failures ever marks an unmarked entry |
| WeightPolicy.AsWrittenResetsTwice | code/helper/code_retriever.py:146-166 | as written, an entry that already had its reset is reset again (0.5), where the documented rule gives 0.225 |
| Retrieval.QueryTokenNoPorts | code/helper/code_retriever.py:70-73 | with no ports the query text ends in an empty port part |
| Retrieval.QueryTokenDetermines | code/helper/code_retriever.py:70-73 | the query text determines the name, the description and the joined ports (for single-line name and description) |
| Retrieval.PointKeyDetermines | code/helper/code_retriever.py:87-89 | the id key determines the module name and the code digest (for names without `:`) |
| Retrieval.FreshPayload | code/helper/code_retriever.py:91-103 | a written payload has the given weight, the code, no success or failure counted, and no flags |
| Retrieval.SearchLimit | code/helper/code_retriever.py:127 | the store is asked for `max(20, 3 * top_k)` hits |
| Retrieval.Rank | code/helper/code_retriever.py:133-141 | score = cosine × weight, where the weight is the payload's or 0.5 without a payload |
| Retrieval.InsertByScore | code/helper/code_retriever.py:142 | inserting keeps the list sorted by non-increasing score and is a permutation |
| Retrieval.SortByScore | code/helper/code_retriever.py:142 | the result is sorted by non-increasing score and is a permutation of the input |
| Retrieval.CandidatesAreTopK | code/helper/code_retriever.py:142-143 | `min(top_k, hits)` candidates, sorted, a prefix of the sorted permutation, none outscored by a dropped hit |
| Retrieval.CandidatesRanked | code/helper/code_retriever.py:131-143 | every kept candidate is a re-ranked hit |
| Retrieval.HeadIsBest | code/helper/code_retriever.py:201-202 | the head of a sorted list reaches a threshold exactly when some element does |
| Retrieval.Library.Upsert | code/helper/code_retriever.py:75-109 | the id is the key of name and digest, and that id, and only it, now holds a fresh payload |
| Retrieval.Library.UpdateWeight | code/helper/code_retriever.py:146-182 | an unknown id changes nothing; a known one gets the documented weight rule, WeightPolicy.Update |
| Retrieval.Library.SearchCandidates | code/helper/code_retriever.py:111-143 | the result is the top-k re-ranked hits, sorted by score, each a re-ranked hit |
| Retrieval.Retrieve | code/helper/code_retriever.py:185-206 | the decision on values: only a hit changes the store, so no entry is added or removed, and a miss leaves it as it was |
| Retrieval.Library.RetrieveOrGenerate | code/helper/code_retriever.py:185-206 | returns what Retrieve gives on the old store and leaves its store: no candidates is a miss; a best score below the threshold is a miss; otherwise a hit returning the stored code after a success update; the store changes only on a hit |
| Retrieval.Library.Reinforce | code/helper/code_retriever.py:233-238 | without a point id nothing changes; otherwise that entry gets the documented weight rule |
| SvHeader.HeaderFromCode | code/demo.py:669-671 | the header is empty or a prefix of the code ending in `;` and starting with `module`; empty exactly when no header matches |
| SvHeader.MatchHeader | code/helper/module_generator.py:18 | a match starts with `module` (any case) after leading whitespace, then an identifier starting with a letter or `_`, then the port text between `(` and `)`, and ends with `;` |
| SvHeader.MatchHeaderAt | code/helper/module_generator.py:18 | a text whose parts stop where each part of the pattern stops is matched, with the name, the ports and the end at exactly those positions |
| SvHeader.HeaderFromCodeComplete | code/demo.py:669-671 | a text that starts with whitespace, `module` in any case, whitespace, an identifier, `(`, ports without `)`, then `);` has exactly that prefix as its header |
| SvHeader.SmallestHeader | code/demo.py:669-671 | `module m(a);` is its own header |
| SvHeader.HeaderIdempotent | code/helper/module_generator.py:15-19 | the header of a header is itself |
| SvHeader.ExtractCodeBlock | code/helper/module_generator.py:11-13 | without a fenced block the result is the stripped content; with one, a text with no fence |
| SvHeader.ExtractFenced | code/helper/code_retriever.py:242-245 | for a reply fenced as asked, both variants give back the stripped code |
| SvHeader.FirstBlock | code/helper/module_generator.py:12 | there is no block exactly when there is no opening fence with a closing fence after it |
| PortParse.ParsePromptHeader | code/helper/one_time_seed.py:19-42 | `("", [])` without a header; otherwise the header's name and one valid port name per chunk that names one, in order |
| PortParse.ChunkPorts | code/helper/one_time_seed.py:29-41 | the loop gives the chunk-by-chunk port names, each valid |
| PortParse.ChunkPort | code/helper/one_time_seed.py:31-41 | a chunk that is blank once comments are removed gives no port; any port is non-empty over `[A-Za-z0-9_$]` |
| PortParse.DropLineComments | code/helper/one_time_seed.py:31 | no `//` is left, and the result is no longer than the input |
| PortParse.DropLineCommentsPlain | code/helper/one_time_seed.py:31 | a text without `//` is unchanged |
| PortParse.DropBlockCommentsPlain | code/helper/one_time_seed.py:32 | a text without `/*` is unchanged |
| PortParse.KeywordMatch | code/helper/one_time_seed.py:36 | a match is some keyword as a whole word, and there is none exactly when no keyword occurs there |
| PortParse.DropKeywordsPlain | code/helper/one_time_seed.py:36 | a text with no whole-word keyword is unchanged |
| PortParse.DropWidths | code/helper/one_time_seed.py:37 | every `[` left has no `]` after it |
| PortParse.LastToken | code/helper/one_time_seed.py:38 | the last token holds no whitespace and is empty exactly when the chunk is all whitespace |
| PortParse.PortChars | code/helper/one_time_seed.py:39 | only `[A-Za-z0-9_$]` is kept, and a text made of those is unchanged |
| PortParse.NameIsIdentifier | code/helper/one_time_seed.py:14 | the matched module name is a letter or `_` followed by word characters |
| SeedImport.EntryOf | code/helper/one_time_seed.py:58-77 | a record gives an upsert exactly when it has a prompt and a solution; the key is `task_id__module`, with `unknown` for a missing task id |
| SeedImport.ModulePart | code/helper/one_time_seed.py:66 | an empty module name becomes `module` |
| SeedImport.Plan | code/helper/one_time_seed.py:53-78 | at most one upsert per line, and a stop names one of the lines |
| SeedImport.PlanStopped | code/helper/one_time_seed.py:57 | once a line fails to decode, later lines change nothing |
| SeedImport.PlanCount | code/helper/one_time_seed.py:70-78 | the number of upserts equals the number of lines that give an entry |
| SeedImport.PlanEntriesWellFormed | code/helper/one_time_seed.py:58-77 | every upsert has the task key, the `verilogEval` tag and valid port names |
| SeedImport.ImportVerilogEval | code/helper/one_time_seed.py:44-81 | the library gets exactly the planned upserts in order, and the count returned is their number, or the failing line |
| SeedImport.ImportLine | code/helper/one_time_seed.py:54-78 | a line stops the import exactly when it is not blank and does not decode, and the line upserts exactly what it gives |
| SeedImport.UpsertAllAppend | code/helper/one_time_seed.py:53-78 | upserting two runs in turn is upserting them joined |
| Ppa.CeilDiv | code/helper/ppa_eval.py:5-6 | the least integer at or above `a / b` |
| Ppa.CeilDivSign | code/helper/ppa_eval.py:87-89 | a positive count needs at least one block, and zero needs none |
| Ppa.BitsOf | code/helper/ppa_eval.py:8-12 | 16 when the name holds no digit |
| Ppa.BitsOfRun | code/helper/ppa_eval.py:11-12 | otherwise it reads the first maximal run of digits |
| Ppa.BitsOfExamples | code/helper/ppa_eval.py:8-12 | int8→8, int16→16, fp16→16, float→16, int4x2→4 |
| Ppa.MergeGoal | code/helper/ppa_eval.py:31 | every goal field the override gives wins |
| Ppa.ElemsPerBramWord | code/helper/ppa_eval.py:80 | at least one element per word |
| Ppa.EstBramsLower | code/helper/ppa_eval.py:73-89 | each non-empty buffer costs at least one block |
| Ppa.OutputLikeInput | code/helper/ppa_eval.py:97-103 | output- and input-stationary arrays move `(rows + cols) × bytes per element` a cycle |
| Ppa.RawFmax | code/helper/ppa_eval.py:107-111 | the raw frequency is at most the clock cap |
| Ppa.EstFreq | code/helper/ppa_eval.py:115-121 | the estimate is at most the raw frequency, and at most the bandwidth limit when bytes per cycle is positive |
| Ppa.DspCheck | code/helper/ppa_eval.py:135-136 | reports one DSP violation exactly when the budget is given and exceeded |
| Ppa.BramCheck | code/helper/ppa_eval.py:137-138 | reports one BRAM violation exactly when the budget is given and exceeded |
| Ppa.LutCheck | code/helper/ppa_eval.py:139-140 | reports one LUT violation exactly when the budget is given and exceeded |
| Ppa.FreqCheck | code/helper/ppa_eval.py:142-143 | reports one shortfall exactly when the estimate is below the goal |
| Ppa.AreaCheck | code/helper/ppa_eval.py:146-154 | reports the area violation exactly when "area" is a goal (any case) and the composite exceeds the bound all three budgets imply |
| Ppa.ViolationsJoin | code/helper/ppa_eval.py:132-154 | the reasons come in check order, each check at most once |
| Ppa.BudgetViolations | code/helper/ppa_eval.py:135-140 | each budget reason is present exactly when that budget is given and exceeded |
| Ppa.GoalViolations | code/helper/ppa_eval.py:142-154 | the frequency and area reasons are present exactly when their conditions hold |
| Ppa.LatencyGoalSkipsArea | code/helper/ppa_eval.py:146 | under the default `["latency"]` goal the area check never fires |
| Ppa.Evaluate | code/helper/ppa_eval.py:14-183 | fails exactly on a zero-bit precision or a negative PE count; otherwise the report carries `rows × cols` PEs, the precision's bits, the DSP, LUT and BRAM estimates, bytes per cycle, the frequency estimate and power from the merged configuration, the merged goal (200 MHz and `["latency"]` by default), and the violations of those figures in check order; `meets_goal` exactly when there are none; the frequency is within the clock cap and the bandwidth limit |
| Ppa.DefaultEstimate | code/helper/ppa_eval.py:33-154 | the all-default array: 16 PEs, 16 DSPs, 1344 LUTs, 3 BRAMs, 16 B/cycle, 150 MHz, and one frequency shortfall |
| Ppa.StubFreq | code/demo.py:686 | 400 less 5 per `*`, floored at 100: within 100..400, and 100 from 60 multiplications on |
| Ppa.StubFreqMonotone | code/demo.py:686 | more multiplications never raise the stub's frequency |
| Ppa.StubEvaluate | code/demo.py:674-698 | the stub's frequency is StubFreq of the number of `*`, its area is 100 per `"module "`, its power is 0.02 per unit of area, and it meets its goal exactly when both of its tests pass |
| Ppa.StubFortyMults | code/demo.py:686-691 | forty multiplications give 200 MHz, which misses a 300 MHz goal |
| Ppa.StubAreaCaseSensitive | code/demo.py:691 | the stub's area test is case-sensitive, unlike the estimator's |
| Generator.Put | code/demo.py:800 | dictionary assignment keeps keys distinct, keeps a present key's position, and appends a new key |
| Generator.ChildHeadersText | code/helper/module_generator.py:21-28 | empty exactly for no headers, and otherwise starts with the fenced intro |
| Generator.FormatChildHeaders | code/helper/module_generator.py:21-28 | the loop gives the formatted header text |
| Generator.ChildHeadersListsEach | code/helper/module_generator.py:25-28 | each entry's `// child:` block appears in the text |
| Generator.ContextBlocks | code/helper/module_generator.py:35-42 | at most one block per child |
| Generator.BuildModuleContext | code/helper/module_generator.py:30-48 | the context is built from the children with accepted code and a header, in child-list order |
| Generator.CollectChildBlocks | code/helper/module_generator.py:36-42 | the loop collects exactly the blocks of the children with accepted code and a non-empty header, in child-list order |
| Generator.ContextEmptyIff | code/helper/module_generator.py:43-48 | the context is empty exactly when no child has accepted code with a header |
| Generator.ContextBlocksMembers | code/helper/module_generator.py:37-42 | every child with an accepted header has its block in the context |
| Generator.ContextBlocksOnly | code/helper/module_generator.py:37-42 | every block in the context belongs to such a child |
| Generator.PortsText | code/helper/module_generator.py:75 | no ports give `(no ports specified)` |
| Generator.PortsTextListsEach | code/helper/module_generator.py:75 | every port appears in the port text |
| Generator.RequestFor | code/helper/module_generator.py:75-90 | the request carries the port text and child-header text, and a reference exactly when the retrieved code is non-empty |
| Generator.FirstReply | code/helper/module_generator.py:140-146 | the attempt it names is within the bound and got a reply |
| Generator.FirstReplyIsFirst | code/helper/module_generator.py:140-146 | no attempt before the first reply got one, and none at all when no reply came |
| Generator.Generate | code/helper/module_generator.py:72-150 | no key fails at once with the missing-key error; with a key the only failure is retries exhausted |
| Generator.AttemptsUsed | code/helper/module_generator.py:140-150 | no attempts without a key; never more than `max_retries`; success comes from the reply at the last attempt made, whose code block is the result; failure uses every attempt |
| Generator.GenerateFirstReply | code/helper/module_generator.py:140-150 | with a key, generation fails exactly when every attempt fails, and no attempt before the last one made got a reply |
| Generator.NoAttemptsNoCode | code/helper/module_generator.py:140-150 | with no attempts allowed it gives up |
| Generator.ModuleGeneratorLlm | code/helper/module_generator.py:50-150 | builds the request from the inputs and returns exactly the result and the attempt count the generator specification gives for it |
| Generator.RetryCompletion | code/helper/module_generator.py:140-150 | the `for` loop over attempts returns the specified result after the specified number of attempts |
| Synthesis.DemoChildHeaders | code/demo.py:795-800 | distinct keys, at most one entry per child, each key a child |
| Synthesis.DemoChildHeadersExact | code/demo.py:795-800 | every entry is a child with accepted code and that code's non-empty header, and every such child has an entry |
| Synthesis.ChildHeaders | code/demo.py:795-800 | the loop gives the driver's child headers |
| Synthesis.DemoBlocksMatchContext | code/demo.py:795-800 | for distinct children, the driver's headers give the same blocks, in the same order, as the generator's own module context |
| Synthesis.DemoHeadersMatchContext | code/demo.py:795-800 | so the formatted headers are the module context less its last line break |
| Synthesis.Feedback | code/demo.py:811-817 | empty exactly when the previous message is empty; otherwise bounded, and holds the first 700 characters of the message |
| Synthesis.AttemptRequest | code/demo.py:819-836 | the request's notes are the feedback, and a reference is passed only after a hit |
| Synthesis.Repair | code/demo.py:806-852 | at most ten attempts; the attempt succeeds exactly when it has code; accepted code passed validation or soft-passed; failure means all ten were used |
| Synthesis.AcceptedStops | code/demo.py:843-851 | an accepted attempt is the last one |
| Synthesis.RejectedFeedsBack | code/demo.py:852 | a rejected attempt feeds its message, cut to 700 characters, to the next one |
| Synthesis.Attempt | code/demo.py:819-841 | one generation, then validation of the accepted bundle plus the candidate; the pair it returns is exactly one step of the repair outcome (stop on an error, stop on acceptance, otherwise retry with the new feedback) |
| Synthesis.RepairLoop | code/demo.py:802-854 | the `while` loop computes the repair outcome |
| Synthesis.UpsertWeight | code/demo.py:865 | a miss writes weight 0.5, a hit the weight it was retrieved with |
| Synthesis.UpsertTag | code/demo.py:866 | a hit is tagged `refined`, a miss `generated` |
| Synthesis.Reported | code/demo.py:868-873 | the hit's entry gets the documented weight rule with the reported outcome; no other entry changes, and without a hit nothing does |
| Synthesis.Committed | code/demo.py:857-873 | accepted code is written under its key as a fresh payload with the hit's weight or 0.5 and the `refined` or `generated` tag; the hit's entry is rewarded on a commit and penalised otherwise; no other entry changes and none is lost |
| Synthesis.Commit | code/demo.py:857-873 | accepted non-empty code enters the bundle; the library becomes Committed: the code written under its key with the hit's weight and tag, the hit rewarded; otherwise the bundle stays and the hit is penalised |
| Synthesis.BuildSpec | code/demo.py:786-873 | one module on values: at most ten attempts; the bundle gains exactly the committed code, which passed validation together with the bundle before it; the library loses no entry |
| Synthesis.BuildModule | code/demo.py:786-873 | retrieval, child headers, repair and commit give exactly the result and library of BuildSpec; the outcome is the repair outcome of the module's job with what retrieval found; committed code passed validation with the bundle before it |
| Synthesis.Bundle | code/demo.py:857-858 | every bundled module was built and has non-empty code |
| Synthesis.RunFrom | code/demo.py:785-873 | the run on values: the library loses no entry, and a run that completes has one outcome per module |
| Synthesis.Run | code/demo.py:778-873 | builds in schedule order, so children first in a hierarchy without cycles; each module is in the bundle exactly when its code was committed, with that code, and that code passed validation with the modules committed before it; no failed module is added; the result and the library are those of RunFrom, and the library keeps every entry it started with |

## Left out

- HTTP, the embedding service, the vector store and the completion service are function
  parameters (`search`, `complete`). This covers `get_embedding`, `qdrant`, `ensure_collection`
  and `fallback_llm_func`. The wording of the prompts is not modelled, including the tuple that
  line 114 of `module_generator.py` formats into the user prompt.
- The `iverilog` subprocess (`compile_bundle_syntax_only`, `has_iverilog`) is the `validate`
  parameter.
- SHA-1 is the `digest` parameter. The name-based UUID of a point id is taken to be its key
  string `name + ":" + digest`.
- JSON decoding of configuration files and seed lines is not modelled. The estimator takes a
  `Config` value with the source's defaults already filled in. A seed line goes through the
  `decode` parameter, and an undecodable line stops the import with an error.
- File reads and writes (sketch files, the module index, the task list), `print`, logging,
  `time.sleep` back-off and timestamps (`added_at`, `last_used`) are not modelled.
- Floating-point arithmetic is exact `real` arithmetic. `math.sqrt` is the `sqrt` parameter.
  `adder_cost_lut` values are integers. The text of a violation, with its float formatting, is a
  `Violation` value instead.
- SvHeader.ExtractCodeBlock: states the no-block case and that the result holds no fence. The full
  round trip is stated for replies fenced as asked, by SvHeader.ExtractFenced.
- `\s` is Python's `str.isspace` set. `\w`, `\b`, `lower()` and case-insensitive matching are
  restricted to ASCII. Python's `re.IGNORECASE` also matches `[A-Za-z_]` and the letters of
  `module` and of the fence tags against a few non-ASCII letters (`İ`, `ı`, `ſ`, the Kelvin sign).
- Python's list sort is stable. `SortByScore` is a stable insertion sort, but stability is not
  stated.
- The completion oracle answers the same request and attempt number the same way. Two module
  attempts with the same feedback therefore get the same reply.
- `use_retriever_for_module` is not modelled. It is never called, it assigns a tuple as code, and it
  never calls its fallback.
- The one-time seed script's module-level run on a fixed path is not modelled.
- The driver uses the corrected schedule (Hierarchy.Schedule); see Findings. `update_weight` is
  never called with the second-chance argument, so every use passes `false`.
- Retrieval.Library.UpdateWeight: applies the documented rule (WeightPolicy.Update), not the rule
  as written (WeightPolicy.UpdateAsWritten). The two differ only on an entry that already had its
  reset (see Findings).
- Retrieval.Library.Reinforce: applies the documented rule through UpdateWeight, for the same reason.
- Retrieval.Retrieve: the optimistic success update of a hit uses the documented rule.
- Retrieval.Library.RetrieveOrGenerate: the same, through UpdateWeight.
- Synthesis.Reported: reports with the documented rule.
- Synthesis.Committed: rewards or penalises the hit with the documented rule, through Reported.
- Synthesis.Commit: the same, through UpdateWeight.
- SvHeader.HeaderFromCodeComplete: covers headers without a `#(...)` parameter list and without
  whitespace before the `(` or the `;`. Other headers rely on SvHeader.MatchHeader's soundness.
- Ppa.BitsOf: reads only ASCII digits. Python's `\d` at line 11 of `ppa_eval.py` also matches
  other Unicode decimal digits.
- A library hit whose point has no payload makes `retrieve_or_llm_generate` fail, as reading its
  code would. The driver stops the run on that error, and on a generator failure.

## Findings

| source | as written | input that shows it | evidently intended | confidence | as-written member | corrected member |
|---|---|---|---|---|---|---|
| code/helper/code_retriever.py:146-166 | The failure reset is gated only by the `second_chance_given` argument, which every caller leaves `False`. The flag stored at line 166 is never read. | An entry at weight 0.25 that already had its reset fails once. It is reset to 0.5 again instead of dropping to 0.225. A run of failures therefore never marks it for collection. | The reset is given once (docstring, line 149), so the stored flag also gates it. | not executed | WeightPolicy.AsWrittenResetsTwice | WeightPolicy.AtMostOneReset |
| code/demo.py:637-639 | `postorder_modules` appends a child name that has no entry in `mods`. The loop then reads `mods[mname]` at line 787 and fails with a `KeyError`. | `mods = {"top": {"children": ["x"]}}` with top `"top"` gives the order `["x", "top"]`. | A hierarchy naming an unknown child is refused before any module is built. | not executed | Hierarchy.DanglingChildScheduled | Hierarchy.Schedule |
