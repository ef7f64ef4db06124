# Gauge core bookkeeping, modelled in Dafny

This project models five pieces of Gauge, the acceptance-test tool, and proves properties about them.

- **Specification** (`GaugeSpec`, `specification.dfy`). A parsed specification file keeps typed lists (`Scenarios`, `Contexts`, `Comments`) alongside the source-ordered `Items`.
  - Adding, removing and filtering items keeps the two views consistent. So does concept expansion: the expanded steps and scenarios show through `Items` and through each scenario's items, as they do in Go through the shared pointers.
  - `GetSpecItems`, `AllItems` and the tag accessors are list views.
  - Concept expansion replaces a step that names a concept with a copy of the concept's body. It restores the call-site arguments, points the body's steps back at the invocation, and binds the concept's parameters. A pass visits contexts, then scenario steps, then teardown steps, and stops at the first error.
- **Spec information gatherer** (`SpecDetails`, `spec_details.dfy`). It keeps three caches:
  - specifications by file (a list per file);
  - concepts by file (a list per file);
  - the step catalogue by signature, where the first writer wins.

  File-system events keep the caches current. Every cache operation is treated as atomic, because the gatherer's mutex makes it so.
- **Console** (`Console`, `console.dfy`).
  - The plugin writer tags every line of a plugin's output with `[<name> Plugin] : `.
  - The console writer counts the lines printed since the current step, so that it can move the cursor back over them when the step finishes.
- **Scenario lookup for the language server** (`CustomResponses`, `custom_responses.dfy`). It finds the scenario under the cursor, or lists all scenarios. Each answer is identified by `<file>:<heading line>`.
- **Plugin bookkeeping** (`Plugins`, `plugins.dfy`).
  - Manifest membership.
  - Execution scope.
  - The handler's table of running plugins.
  - The manifest update that adds a plugin to a project.

`Collections` (`collections.dfy`) and `Text` (`text.dfy`) hold the generic helpers the model is stated with:
- `Option` and `Result` for Go's nil and error returns;
- `Error`, and `Effect`, the state an in-place update leaves behind together with its error;
- order-preserving filtering, mapping and flattening;
- `strings.Split`/`Join`/`Count` for one separator character, with their round-trip lemmas;
- `%d` formatting and parsing;
- ASCII lower-casing.

## How the model is built

- **Values, not pointers.** Go pointers become values.
  - A step's object identity is its `id` field.
  - The non-owning `Parent` pointer is the `Option<StepId>` handle of the enclosing step.
  - `reflect.DeepEqual` in `getIndexFor` becomes Dafny equality on the datatype. That equality also compares step identities and parent handles, so two deep-equal scenarios made of distinct step objects are told apart (see "## Left out").
- **State changes.** An operation that mutates in place and returns an error becomes a pure function. It returns an `Effect`, which holds the state left behind and the error.
- **Go panics.** A case where Go panics becomes a `requires`:
  - index out of range in `removeScenario` when the scenario is absent;
  - `PopulateConceptLookup` when its loop reaches a call-site argument that has no concept parameter. The loop stops at the first failing binding, so only a pass that binds every parameter and still has arguments left panics (`BindingInRange`). `createConceptStep` returns a failed copy's error before binding anything (`CreateInRange`). A pass over a specification's steps only needs this for the steps it reaches, up to and including the first failing one (`InRangeUntilError`);
  - `LatestScenario` on an empty list.
- **Collaborators are parameters.** Code this model does not see is passed in as functions:
  - the parsers, `CreateStepValue`, `ConceptDictionary.Search`, `Step.GetCopy` and `ArgLookup.AddArgValue`;
  - `Scenario.InSpan`;
  - `filepath.Abs`, `util.IsSpec`, `IsConcept` and `IsDir`;
  - the outcome of starting a plugin and of saving the manifest.
- **Strings are byte strings.** A Dafny `string` here stands for a Go byte string, one character per byte. So `|message|` is Go's `len(b)`, the byte count that `Write` reports.
- **Step copies.** `Step.CopyFrom` is not part of this model. It is taken to copy every field while the object keeps its identity.
- **fsnotify events.** Go switches on the exact value of the fsnotify bit mask. The operation is therefore a datatype `Create | Write | Remove | Rename | Other`, where `Other` stands for `Chmod` and for any combined mask; no case of the switch matches `Other`.
- **Map iteration order.** Go's map iteration order is unspecified.
  - `GetAvailableSpecs` is stated as a multiset: `Gathered`, the multiset of every list in a map.
  - `GetAvailableSteps` is stated as a set of values, each occurring once.
- **Facts about the code the model keeps.**
  - **Re-parsing a file appends.** A re-parsed specification file is not replaced in the cache: `addToSpecsCache` appends the first parsed specification to the file's list, and concepts are appended the same way. `SpecDetails.RewriteSameSpec` states the consequence: after two writes of the same file, its list holds the specification twice. The step catalogue is unchanged by the second write.
  - **Parent links.** `createConceptStep` sets `Parent` on *every* immediate child of the expanded step, whether or not the child is itself a concept invocation.
  - **Removing a file.** Removal only deletes the file's key. The step catalogue is never touched, so step values of a removed file stay in it.
  - **Watches are never dropped.** `handleEvent` only dispatches for specification and concept paths, so the branch of `onFileRemove` that drops the watch on any other path is never reached from it (`SpecDetails.HandleEvent`).

## Model

| member | source | states |
|---|---|---|
| GaugeSpec.AddItem | gauge/specification.go:113-119 | the item is appended at the end of `Items`; nothing else changes |
| GaugeSpec.AddScenario | gauge/specification.go:126-129 | the scenario is appended to both `Scenarios` and `Items`; no other field changes; `Scenarios` stays equal to the scenario items of `Items` in order |
| GaugeSpec.AddContext | gauge/specification.go:131-134 | the step is appended to `Contexts` and `Items`; no other field changes; the scenario items are unaffected; while there are no teardown steps, the step items of `Items` stay exactly the contexts in order |
| GaugeSpec.AddComment | gauge/specification.go:136-139 | the comment is appended to `Comments` and `Items`; no other field changes; the scenario items are unaffected |
| GaugeSpec.LatestScenario | gauge/specification.go:163-165 | the latest scenario is one of the scenarios, and the list is the others followed by it; an empty list is excluded, as Go panics on it |
| GaugeSpec.AddScenarioThenLatest | gauge/specification.go:163-165 | the latest scenario is the one added last |
| GaugeSpec.GetIndexFor | gauge/specification.go:292-299 | -1 exactly when no scenario equals the argument; otherwise the position of the first equal one |
| GaugeSpec.RemoveScenario | gauge/specification.go:189-198 | all three branches drop exactly the first entry equal to the scenario and keep the rest in order (multiset: exactly one copy fewer); the scenario must be present, as Go panics otherwise |
| GaugeSpec.RemoveItem | gauge/specification.go:175-187 | `Items` loses exactly element `i`, order preserved; `Scenarios` changes only when that item is a scenario, and then loses exactly one copy of it; nothing else changes |
| GaugeSpec.RemoveItemCutsOne | gauge/specification.go:177-183 | the three slicing branches all equal `Items[:i] + Items[i+1:]` |
| GaugeSpec.RemoveItemKeepsMatch | gauge/specification.go:175-198 | when `Scenarios` and the scenario items of `Items` agree as multisets, the removed scenario is present (so Go does not panic) and they still agree afterwards |
| GaugeSpec.RemoveItemKeepsOrder | gauge/specification.go:175-198 | when `Scenarios` equals the scenario items of `Items` in order and has no duplicates, that stays so after removal |
| GaugeSpec.RemoveScenarioItemKeepsOrder | gauge/specification.go:175-198 | the same when the removed item is a scenario: the item's position among scenario items is the index `getIndexFor` finds, so both views lose the same element |
| GaugeSpec.AddThenRemoveScenario | gauge/specification.go:175-198 | removing the item of a freshly added new scenario gives back the original specification |
| GaugeSpec.Filter | gauge/specification.go:283-290 | `Items` ends as exactly the old items the filter rejects, in order: the `i--` re-scan skips nothing and removes nothing twice; `Scenarios` keeps matching; no other field changes |
| GaugeSpec.GetSpecItems | gauge/specification.go:229-237 | the items with every scenario dropped, in order |
| GaugeSpec.AllItems | gauge/specification.go:265-273 | each item immediately followed by its scenario's own items when it is a scenario; length is the items plus all nested items |
| GaugeSpec.TagValues | gauge/specification.go:337-342 | the in-order concatenation of the raw tag lists |
| GaugeSpec.NTags | gauge/specification.go:156-161 | 0 without tags, otherwise the total number of tag values |
| GaugeSpec.PopulateConceptLookup | gauge/specification.go:200-208 | parameters are bound in ascending order; success exactly when every call-site argument has a parameter and every binding succeeds; on failure the returned error is the first one, and the lookup holds exactly the bindings before it; it may be called whenever the loop does not index past the concept's parameters |
| GaugeSpec.CreateConceptStep | gauge/specification.go:95-111 | a failed copy leaves the step untouched and returns the error; otherwise the step keeps its identity and its call-site arguments, takes every other field from the copy, each immediate child points back at it (deeper steps unchanged), and the returned lookup and error are exactly those of `PopulateConceptLookup` on the copy's lookup, partial lookup included |
| GaugeSpec.CreateConceptStepBinds | gauge/specification.go:95-208 | after a successful copy, the expansion succeeds exactly when all call-site arguments bind; on failure the step's lookup holds the bindings made before the first failing one, whose error is returned |
| GaugeSpec.ProcessConceptStep | gauge/specification.go:88-93 | a step whose text names no concept is left alone with no error; otherwise it is expanded from the concept's root step |
| GaugeSpec.ProcessAll | gauge/specification.go:67-86 | the reference pass: every step keeps its place in the list, each is processed in order, and the pass stops at the first error |
| GaugeSpec.InRangeAppend | gauge/specification.go:67-86 | a pass over two step lists avoids the binding panic exactly when the pass over the first does and, if that raised no error, the pass over the second does too |
| GaugeSpec.ProcessAllAppend | gauge/specification.go:67-86 | a pass over two step lists is a pass over the first, then over the second only if the first raised no error |
| GaugeSpec.ProcessScenarios | gauge/specification.go:73-79 | processing scenario by scenario is one pass over all scenario steps in order that stops at the first error; each scenario keeps its heading and its number of steps, so no step moves to another scenario; a scenario whose step items were its steps shows the expanded steps through its items too |
| GaugeSpec.ProcessConceptStepsFrom | gauge/specification.go:67-86 | the steps end as one pass over contexts, then scenario steps, then teardown steps, stopping at the first error, which is returned; the contexts, teardown and every scenario keep their lengths and each scenario its heading; `Items` keeps its length, the kind of every item and every item that is neither a step nor a scenario; when `Scenarios` and the step lists matched the items in order before the pass they still match them after it, so the expanded steps and scenarios are what `Items` shows; every other field of the specification is unchanged |
| GaugeSpec.WriteBack | gauge/specification.go:67-86 | new typed lists are written into `Items` as shared pointers would show them: every item keeps its kind, items that are neither steps nor scenarios are untouched, and matching in order is preserved for scenarios and for steps |
| GaugeSpec.Resync | gauge/specification.go:126-134 | the items as seen after the objects that `AddScenario` and `AddContext` put in both views change: same length, same kind at every position, and every item that is neither a step nor a scenario unchanged |
| GaugeSpec.ResyncScenarios | gauge/specification.go:126-129 | with one scenario per scenario item, the scenario items afterwards are exactly the new scenarios, in order |
| GaugeSpec.ResyncSteps | gauge/specification.go:131-134 | with one step per step item, the step items afterwards are exactly the new steps, in order |
| GaugeSpec.ResyncUnchanged | gauge/specification.go:126-134 | writing back the scenarios and steps the items already show changes nothing |
| SpecDetails.AddToSpecsCache | api/infoGatherer/specDetails.go:108-115 | the specification is appended to the file's list, which starts empty when missing; other files and the other caches are untouched |
| SpecDetails.AddToConceptsCache | api/infoGatherer/specDetails.go:117-124 | the concept is appended to the file's list, which starts empty when missing; other files and the other caches are untouched |
| SpecDetails.AppendAtGathers | api/infoGatherer/specDetails.go:108-124 | appending adds exactly that one entry to the multiset of everything cached |
| SpecDetails.AddToStepsCacheSpec | api/infoGatherer/specDetails.go:126-134 | the contract of `AddToStepsCache`: first writer wins: present signatures keep their value, and a new signature gets the first step value in the batch that carries it; nothing else is added |
| SpecDetails.AddToStepsCacheIdempotent | api/infoGatherer/specDetails.go:126-134 | adding the same batch twice equals adding it once |
| SpecDetails.AddToStepsCacheAppend | api/infoGatherer/specDetails.go:126-134 | adding two batches in turn equals adding their concatenation |
| SpecDetails.AddToStepsCacheKeyed | api/infoGatherer/specDetails.go:126-134 | every entry stays stored under its own signature |
| SpecDetails.GetParsedStepValues | api/infoGatherer/specDetails.go:378-387 | one step value per non-concept step, in order; concept steps contribute nothing |
| SpecDetails.ScenarioStepValues | api/infoGatherer/specDetails.go:368-370 | the step values of each scenario's non-concept steps, scenario by scenario |
| SpecDetails.GetStepsFromSpec | api/infoGatherer/specDetails.go:366-372 | the step values of the non-concept context steps, then of each scenario's non-concept steps; teardown steps are excluded |
| SpecDetails.GetStepsFromConcept | api/infoGatherer/specDetails.go:374-376 | the step values of the root step's immediate non-concept children only |
| SpecDetails.OnSpecFileModify | api/infoGatherer/specDetails.go:176-188 | nothing changes when parsing yields no specification; otherwise only the first parsed one is appended and only its step values are added to the catalogue |
| SpecDetails.AddConcept | api/infoGatherer/specDetails.go:202-207 | one concept is appended to its file's list and its step values are added to the catalogue |
| SpecDetails.AddConceptsKeepsSpecs | api/infoGatherer/specDetails.go:202-207 | adding a file's concepts leaves the specification cache alone |
| SpecDetails.AddConceptsLists | api/infoGatherer/specDetails.go:202-207 | the loop `AddConcepts` over a file's concepts: all of the file's concepts are appended to its list, in order |
| SpecDetails.AddConceptsSteps | api/infoGatherer/specDetails.go:202-207 | adding concept by concept adds all their step values to the catalogue as one batch |
| SpecDetails.OnConceptFileModify | api/infoGatherer/specDetails.go:190-208 | nothing changes on a parse error; otherwise the file's concepts are appended in order and their step values are added |
| SpecDetails.OnSpecFileRemove | api/infoGatherer/specDetails.go:210-218 | only the file's key leaves the specification cache; the concepts and the catalogue are untouched |
| SpecDetails.OnConceptFileRemove | api/infoGatherer/specDetails.go:220-228 | only the file's key leaves the concept cache; the specifications and the catalogue are untouched |
| SpecDetails.OnFileModify | api/infoGatherer/specDetails.go:237-243 | a specification path wins over a concept path and any other path changes nothing; only the modified file's lists change; the catalogue is offered exactly the file's step values |
| SpecDetails.OnFileAdd | api/infoGatherer/specDetails.go:230-235 | the caches change exactly as for a modification; a watch is requested for the path exactly when it is a directory, and no other watch change is made |
| SpecDetails.OnFileRemove | api/infoGatherer/specDetails.go:245-253 | a specification path loses its specification-cache key, else a concept path its concept-cache key, else the path's watch is dropped; the catalogue is never touched |
| SpecDetails.OnFileRename | api/infoGatherer/specDetails.go:255-257 | a rename is handled exactly as a removal of the path and never touches the catalogue |
| SpecDetails.HandleEvent | api/infoGatherer/specDetails.go:259-279 | an unresolvable path or an unlisted operation changes nothing; a write is a modification; the only watch request an event can make is to watch a created directory, so no watch is ever dropped |
| SpecDetails.IgnoredEvents | api/infoGatherer/specDetails.go:259-279 | an unresolvable path, or one that is neither a specification nor a concept, changes nothing and asks for no watch change |
| SpecDetails.CreateActsAsWrite | api/infoGatherer/specDetails.go:230-243 | a create event changes the caches exactly as a write event does |
| SpecDetails.RenameActsAsRemove | api/infoGatherer/specDetails.go:255-257 | a rename event is handled exactly as a remove event |
| SpecDetails.SpecClassificationWins | api/infoGatherer/specDetails.go:237-253 | a path classified as a specification never touches the concept cache, even when also classified as a concept |
| SpecDetails.RemoveDeletesOneKey | api/infoGatherer/specDetails.go:245-253 | a remove event deletes the key from the specification cache, else from the concept cache; the catalogue never changes |
| SpecDetails.EventCatalogue | api/infoGatherer/specDetails.go:259-279 | the only effect of any event on the catalogue is adding the modified file's step values (none for removals and renames) |
| SpecDetails.CatalogueOnlyGrows | api/infoGatherer/specDetails.go:259-279 | no event removes or replaces a catalogue entry |
| SpecDetails.EventsKeepCatalogueKeyed | api/infoGatherer/specDetails.go:259-279 | every event keeps each catalogue entry under its own signature |
| SpecDetails.RewriteSameSpec | api/infoGatherer/specDetails.go:176-188 | writing the same file twice leaves the catalogue as after the first write, but the file's list holds the specification twice |
| SpecDetails.SpecEventsAndListing | api/infoGatherer/specDetails.go:176-218 | a spec write adds exactly the first parsed specification to what is listed; a spec removal drops exactly that file's list |
| SpecDetails.GetAvailableSpecs | api/infoGatherer/specDetails.go:325-335 | every cached specification of every file, as a multiset |
| SpecDetails.GetAvailableSteps | api/infoGatherer/specDetails.go:338-348 | exactly the catalogue's values, one per signature; so no signature repeats when entries sit under their own signature |
| Console.Prefix | gauge/console.go:33 | the tag is `[`, the plugin name, then ` Plugin] : `; it holds a line break only when the name does |
| Console.AddPrefixEmpty | gauge/console.go:26-37 | an empty message stays empty |
| Console.SplitTagged | gauge/console.go:26-37 | `AddPrefixToEachLine` joins the tagged lines so that splitting its output at line breaks gives back exactly those tagged lines |
| Console.AddPrefixLines | gauge/console.go:26-37 | each line of the output is the tag plus the matching input line, except a final empty line, which stays empty |
| Console.AddPrefixKeepsLineBreaks | gauge/console.go:26-37 | the output has exactly as many line breaks as the input |
| Console.PrefixRoundTrip | gauge/console.go:26-37 | taking the tag off every line gives back the plugin's message |
| Console.PluginWrite | gauge/console.go:18-24 | the reported length is that of the untagged message |
| Console.PluginWriteCounts | gauge/console.go:18-24 | a plugin's write moves the console's line counter exactly as its untagged message would |
| Console.NewConsoleWriter | gauge/console.go:39-41 | counter 0, not inside a step |
| Console.Write | gauge/console.go:52-59 | always reports the whole message; inside a step the counter grows by the message's line breaks, otherwise nothing changes |
| Console.WriteError | gauge/console.go:65-70 | counts line breaks exactly as `Write` does |
| Console.WriteStep | gauge/console.go:112-117 | inside a step, counter reset to 0 |
| Console.WriteStepFinished | gauge/console.go:120-135 | moves up the counter plus the step text's line breaks (at least 1), down by the same amount; leaves the step, keeps the counter |
| Console.WritesOutsideStep | gauge/console.go:52-59 | writes outside a step never change the writer |
| Console.WritesInsideStep | gauge/console.go:52-59 | writes inside a step add up their line breaks |
| Console.StepTrace | gauge/console.go:112-135 | starting a step, writing messages, then finishing the step moves the cursor over exactly the messages' line breaks plus the step's lines, and back down as far |
| CustomResponses.ExecutionIdentifierRoundTrip | api/lang/customResponses.go:151 | the `%s:%d` identifier (`ExecutionIdentifier`) is unambiguous: `ParseExecutionIdentifier`, splitting the identifier at its last colon recovers the file and the decimal line, even when the file name holds colons |
| CustomResponses.GetScenarioInfo | api/lang/customResponses.go:147-153 | the heading text and line number are copied unchanged |
| CustomResponses.ScenarioInfoIdentifies | api/lang/customResponses.go:147-153 | the info's identifier names the requested file and the heading's line |
| CustomResponses.GetScenarioAt | api/lang/customResponses.go:136-146 | the answer is a single scenario exactly when some scenario spans `line + 1`, and then it is the first such one; otherwise every scenario's info, in order |
| Plugins.IsPluginAdded | gauge/plugin.go:231-238 | true exactly when some manifest entry matches the descriptor on both id and version |
| Plugins.IsExecutionScopePlugin | gauge/plugin.go:277-284 | true exactly when some scope lower-cases to `execution` |
| Plugins.ExecutionScopeIgnoresCase | gauge/plugin.go:277-284 | lower-casing the scopes first does not change the answer |
| Plugins.AddPlugin | gauge/plugin.go:286-291 | a nil map is created; the id maps to the plugin, replacing any previous one; other ids are unchanged |
| Plugins.RemovePlugin | gauge/plugin.go:293-295 | only the id is deleted; deleting an absent id, or from a nil map, changes nothing |
| Plugins.RemoveUndoesAdd | gauge/plugin.go:286-295 | removing a plugin just added leaves running what removing it alone would |
| Plugins.AddPluginIdempotent | gauge/plugin.go:286-291 | adding the same plugin twice under one id equals adding it once |
| Plugins.AddPluginToTheProject | gauge/plugin.go:213-229 | the manifest is left untouched with an error in three cases: a descriptor error, an already-added plugin, or a failed setup start; otherwise exactly one `{Id, Version}` entry is appended and the save outcome is returned |
| Plugins.AddedPluginIsRefusedAgain | gauge/plugin.go:219-228 | after a successful add the plugin is listed, and adding it again is refused without touching the manifest |

## Left out

- Goroutines, the wait group, the mutex and the watcher loop (`watchForFileChanges`). Each cache operation is treated as atomic and sequential. The wait group is a liveness device.
- Initial cache building (`MakeListOfAvailableSteps`, `initSpecsCache`, `initConceptsCache`, `initStepsCache`) and `GetConceptInfos`. They walk the project directories and convert to protobuf messages. The step catalogue they build goes through the same `AddToStepsCache`.
- fsnotify watch registration. A handler returns the watch changes it asks for (`AddWatch` for a created directory, `RemoveWatch` for another removed path) rather than performing them.
- The parsers, `CreateStepValue`, `ConceptDictionary.Search`, `Step.GetCopy`, `Step.CopyFrom`, `ArgLookup.AddArgValue`, `Scenario.InSpan` and `formatStep`. They are abstract parameters, and their errors are abstract.
- Concept cycle detection and nested expansion. `createConceptStep` expands one level only.
- GaugeSpec.ProcessConceptStepsFrom: Go shares pointers between `Items` and the typed lists; the model writes the expanded lists back by position instead. The k-th scenario item shows the k-th scenario. The k-th step item of `Items` shows the k-th of the contexts followed by the teardown steps. The k-th step item of a scenario's items shows its k-th step. This is what the pointers do whenever the items list the same objects in the same order (`ScenariosInOrder`, `StepsInOrder`, `ScenarioStepsInOrder`), and the contract pins `Items` only then. A specification built otherwise, for example with a step item in `Items` that is not a context or teardown step, gets its step items overwritten by position rather than by identity.
- GaugeSpec.ProcessScenarios: the items of a scenario whose step items are not exactly its steps are left unspecified, for the reason above.
- Printing, terminal colours and cursor control. The console writer returns the cursor movements as numbers.
- `writeString`, `writeSpecHeading`, `writeScenarioHeading`, `writeItems`, `writeComment` and `writeTable`. They only format text and call `Write` or the terminal.
- Process start and kill, plugin discovery, environment variables, JSON and the manifest file. The outcomes of starting a plugin and of saving the manifest are parameters of `AddPluginToTheProject`.
- The language-server request handlers and the workspace edit for stub implementations. They do file and network I/O.
- `GaugeSpec.GetIndexFor` (and so `RemoveScenario` and `RemoveItem`) compares scenarios with Dafny equality, which includes each step's identity and parent handle. Go's `reflect.DeepEqual` follows pointers and ignores object identity. So for `Scenarios = [a, b]`, where `b` is a distinct object with the same content as `a`, Go finds index 0 for `b` and the model finds 1. Step identity is kept because concept expansion needs it for parent links.
- `GaugeSpec.Filter` requires that `Scenarios` and the scenario items of `Items` agree as multisets. Without that, Go's `removeScenario` can panic partway through the loop.
- `Console.AddPrefixLines`, `Console.AddPrefixKeepsLineBreaks`, `Console.PrefixRoundTrip` and `Console.PluginWriteCounts` require that the plugin name holds no line break. A name with a line break adds lines of its own.
- `Console.Write`: Go's `int` counter is unbounded here. 64-bit wrap-around is not modelled, because no console prints that many lines.
- `CustomResponses.GetScenarioAt` returns an empty list when there are no scenarios. Go returns a nil slice, which JSON encodes as `null` rather than `[]`.
- `Plugins.IsExecutionScopePlugin` lower-cases ASCII letters only. Go's `strings.ToLower` also folds other Unicode letters.
