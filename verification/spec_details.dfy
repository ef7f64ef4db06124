/**
  The spec information gatherer: three caches (specifications by file,
  concepts by file, step values by signature) and the file-event handlers
  that keep them up to date. Every cache operation is treated as atomic, as
  the gatherer's mutex makes it; the wait group, the watcher goroutine and
  fsnotify registration are outside the model, and the file-system
  collaborators (absolute paths, file classification, the parsers and
  CreateStepValue) are parameters.
 */
module SpecDetails {
  import opened Collections
  import opened GaugeSpec

  /** A step signature with placeholders normalised; the catalogue key. */
  datatype StepValue = StepValue(stepValue: string, parameterizedStepValue: string, args: seq<string>)

  datatype Gatherer = Gatherer(
    specsCache: map<string, seq<Specification>>,
    conceptsCache: map<string, seq<Concept>>,
    stepsCache: map<string, StepValue>)

  /** What ConceptParser.ParseFile yields: the root steps and the error of the parse result, if any. */
  datatype ConceptParse = ConceptParse(concepts: seq<Step>, error: Option<Error>)

  /** The collaborators the handlers consult. */
  datatype Workspace = Workspace(
    abs: string -> Option<string>,
    isSpec: string -> bool,
    isConcept: string -> bool,
    isDir: string -> bool,
    parseSpecs: string -> seq<Specification>,
    parseConcepts: string -> ConceptParse,
    createStepValue: Step -> StepValue)

  /** The fsnotify operations; `Other` stands for Chmod and for combined bit masks, which no case matches. */
  datatype Op = Create | Write | Remove | Rename | Other

  datatype Event = Event(name: string, op: Op)

  /** The watcher registrations a handler asks for. */
  datatype WatchRequest = AddWatch(dir: string) | RemoveWatch(path: string)

  datatype Handled = Handled(gatherer: Gatherer, watches: seq<WatchRequest>)

  /** Every catalogue entry sits under its own signature. */
  predicate KeyedBySignature(cache: map<string, StepValue>)
  {
    forall k :: k in cache ==> cache[k].stepValue == k
  }

  /** Some step value in `batch` carries signature `k`. */
  predicate HasSignature(batch: seq<StepValue>, k: string)
  {
    exists i :: 0 <= i < |batch| && batch[i].stepValue == k
  }

  /** The position of the first step value in `batch` carrying signature `k`. */
  function FirstWithSignature(batch: seq<StepValue>, k: string): (r: nat)
    requires HasSignature(batch, k)
    ensures r < |batch| && batch[r].stepValue == k
    ensures forall i :: 0 <= i < r ==> batch[i].stepValue != k
  {
    if batch[0].stepValue == k then 0
    else
      assert HasSignature(batch[1..], k) by {
        var i :| 0 <= i < |batch| && batch[i].stepValue == k;
        assert batch[1..][i - 1] == batch[i];
      }
      1 + FirstWithSignature(batch[1..], k)
  }

  // ---------------------------------------------------------------------
  // Cache primitives (specDetails.go:108-134)
  // ---------------------------------------------------------------------

  /** addToSpecsCache: appends to the file's list, creating it when missing. */
  function AddToSpecsCache(g: Gatherer, key: string, spec: Specification): (r: Gatherer)
    ensures r.specsCache.Keys == g.specsCache.Keys + {key}
    ensures r.specsCache[key] == ListAt(g.specsCache, key) + [spec]
    ensures forall k :: k in g.specsCache && k != key ==> r.specsCache[k] == g.specsCache[k]
    ensures r.conceptsCache == g.conceptsCache && r.stepsCache == g.stepsCache
  {
    g.(specsCache := AppendAt(g.specsCache, key, spec))
  }

  /** addToConceptsCache: appends to the file's list, creating it when missing. */
  function AddToConceptsCache(g: Gatherer, key: string, concept: Concept): (r: Gatherer)
    ensures r.conceptsCache.Keys == g.conceptsCache.Keys + {key}
    ensures r.conceptsCache[key] == ListAt(g.conceptsCache, key) + [concept]
    ensures forall k :: k in g.conceptsCache && k != key ==> r.conceptsCache[k] == g.conceptsCache[k]
    ensures r.specsCache == g.specsCache && r.stepsCache == g.stepsCache
  {
    g.(conceptsCache := AppendAt(g.conceptsCache, key, concept))
  }

  /** Appending one entry adds exactly that entry to the multiset of everything cached. */
  lemma AppendAtGathers<V>(m: map<string, seq<V>>, key: string, v: V)
    ensures Gathered(AppendAt(m, key, v)) == Gathered(m) + multiset{v}
  {
    var r := AppendAt(m, key, v);
    GatheredSplit(r, key);
    assert r - {key} == m - {key};
    if key in m {
      GatheredSplit(m, key);
    } else {
      assert m - {key} == m;
    }
  }

  /**
    addToStepsCache: first writer wins. Signatures already present keep their
    step value; a new signature gets the first step value carrying it.
   */
  function AddToStepsCache(cache: map<string, StepValue>, batch: seq<StepValue>): map<string, StepValue>
    decreases |batch|
  {
    if |batch| == 0 then cache
    else
      var step := batch[0];
      AddToStepsCache(if step.stepValue in cache then cache else cache[step.stepValue := step], batch[1..])
  }

  /**
    First writer wins: a signature already present keeps its step value, and
    a new signature gets the first step value in the batch carrying it; no
    other signature is added.
   */
  lemma {:induction false} AddToStepsCacheSpec(cache: map<string, StepValue>, batch: seq<StepValue>)
    ensures var r := AddToStepsCache(cache, batch);
      && (forall k :: k in cache ==> k in r && r[k] == cache[k])
      && (forall k :: k in r <==> k in cache || HasSignature(batch, k))
      && (forall k :: k in r && k !in cache ==> r[k] == batch[FirstWithSignature(batch, k)])
    decreases |batch|
  {
    if |batch| != 0 {
      var step := batch[0];
      var next := if step.stepValue in cache then cache else cache[step.stepValue := step];
      AddToStepsCacheSpec(next, batch[1..]);
      var r := AddToStepsCache(cache, batch);
      assert r == AddToStepsCache(next, batch[1..]);
      forall k ensures HasSignature(batch, k) <==> k == step.stepValue || HasSignature(batch[1..], k) {
        if HasSignature(batch, k) && k != step.stepValue {
          var i :| 0 <= i < |batch| && batch[i].stepValue == k;
          assert batch[1..][i - 1] == batch[i];
        }
        if HasSignature(batch[1..], k) {
          var i :| 0 <= i < |batch[1..]| && batch[1..][i].stepValue == k;
          assert batch[i + 1] == batch[1..][i];
        }
      }
      forall k | k in r && k !in cache ensures r[k] == batch[FirstWithSignature(batch, k)] {
        if k != step.stepValue {
          assert FirstWithSignature(batch, k) == 1 + FirstWithSignature(batch[1..], k);
        }
      }
    }
  }

  /** The catalogue stays keyed by signature. */
  lemma AddToStepsCacheKeyed(cache: map<string, StepValue>, batch: seq<StepValue>)
    requires KeyedBySignature(cache)
    ensures KeyedBySignature(AddToStepsCache(cache, batch))
  {
    AddToStepsCacheSpec(cache, batch);
  }

  /** Adding the same batch twice is the same as adding it once. */
  lemma AddToStepsCacheIdempotent(cache: map<string, StepValue>, batch: seq<StepValue>)
    ensures AddToStepsCache(AddToStepsCache(cache, batch), batch) == AddToStepsCache(cache, batch)
  {
    var once := AddToStepsCache(cache, batch);
    var twice := AddToStepsCache(once, batch);
    AddToStepsCacheSpec(cache, batch);
    AddToStepsCacheSpec(once, batch);
    assert twice.Keys == once.Keys;
  }

  /** Adding two batches one after the other is adding their concatenation. */
  lemma {:induction false} AddToStepsCacheAppend(cache: map<string, StepValue>, a: seq<StepValue>, b: seq<StepValue>)
    ensures AddToStepsCache(AddToStepsCache(cache, a), b) == AddToStepsCache(cache, a + b)
    decreases |a|
  {
    if |a| == 0 {
      assert a + b == b;
    } else {
      var step := a[0];
      var next := if step.stepValue in cache then cache else cache[step.stepValue := step];
      assert (a + b)[0] == step;
      assert (a + b)[1..] == a[1..] + b;
      AddToStepsCacheAppend(next, a[1..], b);
    }
  }

  // ---------------------------------------------------------------------
  // Step extraction (specDetails.go:366-387)
  // ---------------------------------------------------------------------

  predicate NotConcept(step: Step)
  {
    !step.isConcept
  }

  /** getParsedStepValues: one step value per step that is not a concept, in order. */
  function GetParsedStepValues(steps: seq<Step>, createStepValue: Step -> StepValue): (r: seq<StepValue>)
    ensures r == MapSeq(Filtered(steps, NotConcept), createStepValue)
  {
    if |steps| == 0 then []
    else
      var rest := GetParsedStepValues(steps[1..], createStepValue);
      MapFilteredCons(steps, NotConcept, createStepValue);
      if !steps[0].isConcept then [createStepValue(steps[0])] + rest else rest
  }

  /** The step values of the scenarios' steps, scenario by scenario. */
  function ScenarioStepValues(scenarios: seq<Scenario>, createStepValue: Step -> StepValue): (r: seq<StepValue>)
    ensures r == MapSeq(Filtered(ScenarioSteps(scenarios), NotConcept), createStepValue)
  {
    if |scenarios| == 0 then []
    else
      var rest := ScenarioStepValues(scenarios[1..], createStepValue);
      FilteredAppend(scenarios[0].steps, ScenarioSteps(scenarios[1..]), NotConcept);
      MapSeqAppend(Filtered(scenarios[0].steps, NotConcept), Filtered(ScenarioSteps(scenarios[1..]), NotConcept), createStepValue);
      GetParsedStepValues(scenarios[0].steps, createStepValue) + rest
  }

  /**
    getStepsFromSpec: the step values of the non-concept context steps, then of
    each scenario's non-concept steps; teardown steps are not included.
   */
  function GetStepsFromSpec(spec: Specification, createStepValue: Step -> StepValue): (r: seq<StepValue>)
    ensures r == MapSeq(Filtered(spec.contexts + ScenarioSteps(spec.scenarios), NotConcept), createStepValue)
  {
    FilteredAppend(spec.contexts, ScenarioSteps(spec.scenarios), NotConcept);
    MapSeqAppend(Filtered(spec.contexts, NotConcept), Filtered(ScenarioSteps(spec.scenarios), NotConcept), createStepValue);
    GetParsedStepValues(spec.contexts, createStepValue) + ScenarioStepValues(spec.scenarios, createStepValue)
  }

  /** getStepsFromConcept: the step values of the root step's immediate non-concept children. */
  function GetStepsFromConcept(concept: Concept, createStepValue: Step -> StepValue): (r: seq<StepValue>)
    ensures r == MapSeq(Filtered(concept.conceptStep.conceptSteps, NotConcept), createStepValue)
  {
    GetParsedStepValues(concept.conceptStep.conceptSteps, createStepValue)
  }

  // ---------------------------------------------------------------------
  // File handlers (specDetails.go:176-257)
  // ---------------------------------------------------------------------

  /**
    onSpecFileModify: when the file parses to at least one specification, the
    first one is appended to the file's list (the old entry is kept) and its
    step values are added to the catalogue; otherwise nothing changes.
   */
  function OnSpecFileModify(g: Gatherer, file: string, ws: Workspace): (r: Gatherer)
    ensures |ws.parseSpecs(file)| == 0 ==> r == g
    ensures |ws.parseSpecs(file)| != 0 ==>
      var spec := ws.parseSpecs(file)[0];
      && r.specsCache == AppendAt(g.specsCache, file, spec)
      && r.conceptsCache == g.conceptsCache
      && r.stepsCache == AddToStepsCache(g.stepsCache, GetStepsFromSpec(spec, ws.createStepValue))
  {
    var parsedSpecs := ws.parseSpecs(file);
    if |parsedSpecs| != 0 then
      var parsedSpec := parsedSpecs[0];
      var added := AddToSpecsCache(g, file, parsedSpec);
      added.(stepsCache := AddToStepsCache(added.stepsCache, GetStepsFromSpec(parsedSpec, ws.createStepValue)))
    else g
  }

  /** The concepts a concept file defines: one per root step, all naming the file. */
  function ConceptsOf(file: string, roots: seq<Step>): (r: seq<Concept>)
    ensures |r| == |roots|
    ensures forall i :: 0 <= i < |roots| ==> r[i] == Concept(roots[i], file)
  {
    seq(|roots|, i requires 0 <= i < |roots| => Concept(roots[i], file))
  }

  /** The step values of every concept of a file, concept by concept. */
  function ConceptStepValues(file: string, roots: seq<Step>, createStepValue: Step -> StepValue): (r: seq<StepValue>)
    ensures forall i, j :: 0 <= i < |roots| && 0 <= j < |GetStepsFromConcept(Concept(roots[i], file), createStepValue)| ==>
      GetStepsFromConcept(Concept(roots[i], file), createStepValue)[j] in r
  {
    if |roots| == 0 then []
    else
      var rest := ConceptStepValues(file, roots[1..], createStepValue);
      assert forall i :: 0 < i < |roots| ==> roots[i] == roots[1..][i - 1];
      GetStepsFromConcept(Concept(roots[0], file), createStepValue) + rest
  }

  /** One concept appended to its file's list, its step values added to the catalogue. */
  function AddConcept(g: Gatherer, c: Concept, createStepValue: Step -> StepValue): (r: Gatherer)
    ensures r.specsCache == g.specsCache
    ensures r.conceptsCache == g.conceptsCache[c.fileName := ListAt(g.conceptsCache, c.fileName) + [c]]
    ensures r.stepsCache == AddToStepsCache(g.stepsCache, GetStepsFromConcept(c, createStepValue))
  {
    var added := AddToConceptsCache(g, c.fileName, c);
    added.(stepsCache := AddToStepsCache(added.stepsCache, GetStepsFromConcept(c, createStepValue)))
  }

  /** The concepts of one concept file, each with its steps added to the catalogue in turn. */
  function AddConcepts(g: Gatherer, file: string, roots: seq<Step>, createStepValue: Step -> StepValue): Gatherer
    decreases |roots|
  {
    if |roots| == 0 then g
    else AddConcepts(AddConcept(g, Concept(roots[0], file), createStepValue), file, roots[1..], createStepValue)
  }

  /** Adding a file's concepts leaves the specification cache alone. */
  lemma {:induction false} AddConceptsKeepsSpecs(g: Gatherer, file: string, roots: seq<Step>, createStepValue: Step -> StepValue)
    ensures AddConcepts(g, file, roots, createStepValue).specsCache == g.specsCache
    decreases |roots|
  {
    if |roots| != 0 {
      var c := Concept(roots[0], file);
      var stepped := AddConcept(g, c, createStepValue);
      AddConceptsKeepsSpecs(stepped, file, roots[1..], createStepValue);
    }
  }

  /** Adding a file's concepts one at a time appends all of them, in order, to the file's list. */
  lemma {:induction false} AddConceptsLists(g: Gatherer, file: string, roots: seq<Step>, createStepValue: Step -> StepValue)
    ensures |roots| == 0 ==> AddConcepts(g, file, roots, createStepValue).conceptsCache == g.conceptsCache
    ensures |roots| != 0 ==>
      AddConcepts(g, file, roots, createStepValue).conceptsCache ==
        g.conceptsCache[file := ListAt(g.conceptsCache, file) + ConceptsOf(file, roots)]
    decreases |roots|
  {
    if |roots| != 0 {
      var c := Concept(roots[0], file);
      var stepped := AddConcept(g, c, createStepValue);
      var r := AddConcepts(g, file, roots, createStepValue);
      assert r == AddConcepts(stepped, file, roots[1..], createStepValue);
      AddConceptsLists(stepped, file, roots[1..], createStepValue);
      var tail := ConceptsOf(file, roots[1..]);
      assert ConceptsOf(file, roots) == [c] + tail;
      assert stepped.conceptsCache == g.conceptsCache[file := ListAt(g.conceptsCache, file) + [c]];
      if |roots| == 1 {
        assert tail == [] && ConceptsOf(file, roots) == [c];
      } else {
        AppendAllTwice(g.conceptsCache, file, [c], tail);
      }
    }
  }

  /** Adding a file's concepts one at a time adds all their step values to the catalogue as one batch. */
  lemma {:induction false} AddConceptsSteps(g: Gatherer, file: string, roots: seq<Step>, createStepValue: Step -> StepValue)
    ensures AddConcepts(g, file, roots, createStepValue).stepsCache ==
      AddToStepsCache(g.stepsCache, ConceptStepValues(file, roots, createStepValue))
    decreases |roots|
  {
    if |roots| != 0 {
      var c := Concept(roots[0], file);
      var stepped := AddConcept(g, c, createStepValue);
      AddConceptsSteps(stepped, file, roots[1..], createStepValue);
      AddToStepsCacheAppend(g.stepsCache, GetStepsFromConcept(c, createStepValue), ConceptStepValues(file, roots[1..], createStepValue));
    }
  }

  /**
    onConceptFileModify: on a parse error nothing changes; otherwise every
    concept of the file is appended to the file's list and its steps are
    added to the catalogue.
   */
  function OnConceptFileModify(g: Gatherer, file: string, ws: Workspace): (r: Gatherer)
    ensures ws.parseConcepts(file).error.Some? ==> r == g
    ensures ws.parseConcepts(file).error.None? ==>
      var roots := ws.parseConcepts(file).concepts;
      && r.specsCache == g.specsCache
      && (|roots| != 0 ==> r.conceptsCache == g.conceptsCache[file := ListAt(g.conceptsCache, file) + ConceptsOf(file, roots)])
      && (|roots| == 0 ==> r.conceptsCache == g.conceptsCache)
      && r.stepsCache == AddToStepsCache(g.stepsCache, ConceptStepValues(file, roots, ws.createStepValue))
  {
    var parsed := ws.parseConcepts(file);
    if parsed.error.Some? then g
    else
      AddConceptsKeepsSpecs(g, file, parsed.concepts, ws.createStepValue);
      AddConceptsLists(g, file, parsed.concepts, ws.createStepValue);
      AddConceptsSteps(g, file, parsed.concepts, ws.createStepValue);
      AddConcepts(g, file, parsed.concepts, ws.createStepValue)
  }

  /** onSpecFileRemove: deletes the file's entry from the specification cache only. */
  function OnSpecFileRemove(g: Gatherer, file: string): (r: Gatherer)
    ensures r.specsCache.Keys == g.specsCache.Keys - {file}
    ensures forall k :: k in r.specsCache ==> r.specsCache[k] == g.specsCache[k]
    ensures r.conceptsCache == g.conceptsCache && r.stepsCache == g.stepsCache
  {
    g.(specsCache := g.specsCache - {file})
  }

  /** onConceptFileRemove: deletes the file's entry from the concept cache only. */
  function OnConceptFileRemove(g: Gatherer, file: string): (r: Gatherer)
    ensures r.conceptsCache.Keys == g.conceptsCache.Keys - {file}
    ensures forall k :: k in r.conceptsCache ==> r.conceptsCache[k] == g.conceptsCache[k]
    ensures r.specsCache == g.specsCache && r.stepsCache == g.stepsCache
  {
    g.(conceptsCache := g.conceptsCache - {file})
  }

  /**
    onFileModify: a specification file first, else a concept file, else
    nothing. Only the lists of the modified file change, and the catalogue
    is offered the file's step values.
   */
  function OnFileModify(g: Gatherer, file: string, ws: Workspace): (r: Gatherer)
    ensures !ws.isSpec(file) && !ws.isConcept(file) ==> r == g
    ensures !ws.isSpec(file) ==> r.specsCache == g.specsCache
    ensures ws.isSpec(file) ==> r.conceptsCache == g.conceptsCache
    ensures forall k :: k != file ==>
      ListAt(r.specsCache, k) == ListAt(g.specsCache, k) && ListAt(r.conceptsCache, k) == ListAt(g.conceptsCache, k)
    ensures r.stepsCache == AddToStepsCache(g.stepsCache, ModifyBatch(file, ws))
  {
    if ws.isSpec(file) then OnSpecFileModify(g, file, ws)
    else if ws.isConcept(file) then OnConceptFileModify(g, file, ws)
    else g
  }

  /** onFileAdd: a new directory is put under watch, then the path is handled as modified. */
  function OnFileAdd(g: Gatherer, file: string, ws: Workspace): (r: Handled)
    ensures r.gatherer == OnFileModify(g, file, ws)
    ensures ws.isDir(file) <==> AddWatch(file) in r.watches
    ensures forall w :: w in r.watches ==> w == AddWatch(file)
  {
    Handled(OnFileModify(g, file, ws), if ws.isDir(file) then [AddWatch(file)] else [])
  }

  /**
    onFileRemove: a specification file first, else a concept file, else the
    watch on the path is dropped. The catalogue is never touched.
   */
  function OnFileRemove(g: Gatherer, file: string, ws: Workspace): (r: Handled)
    ensures r.gatherer.stepsCache == g.stepsCache
    ensures ws.isSpec(file) ==>
      r == Handled(g.(specsCache := g.specsCache - {file}), [])
    ensures !ws.isSpec(file) && ws.isConcept(file) ==>
      r == Handled(g.(conceptsCache := g.conceptsCache - {file}), [])
    ensures !ws.isSpec(file) && !ws.isConcept(file) ==> r == Handled(g, [RemoveWatch(file)])
  {
    if ws.isSpec(file) then Handled(OnSpecFileRemove(g, file), [])
    else if ws.isConcept(file) then Handled(OnConceptFileRemove(g, file), [])
    else Handled(g, [RemoveWatch(file)])
  }

  /** onFileRename: the old path is handled exactly as a removed one. */
  function OnFileRename(g: Gatherer, file: string, ws: Workspace): (r: Handled)
    ensures r == OnFileRemove(g, file, ws)
    ensures r.gatherer.stepsCache == g.stepsCache
  {
    OnFileRemove(g, file, ws)
  }

  /**
    handleEvent: resolves the absolute path (giving up when that fails) and
    dispatches only when the path is a specification or a concept file.
    Because of that guard, the watch on a path is never dropped: the only
    watch request an event can make is to watch a created directory.
   */
  function HandleEvent(g: Gatherer, event: Event, ws: Workspace): (r: Handled)
    ensures ws.abs(event.name).None? || event.op.Other? ==> r == Handled(g, [])
    ensures ws.abs(event.name).Some? && event.op.Write? ==>
      r == Handled(OnFileModify(g, ws.abs(event.name).value, ws), [])
    ensures r.watches != [] ==>
      && ws.abs(event.name).Some? && event.op.Create? && ws.isDir(ws.abs(event.name).value)
      && r.watches == [AddWatch(ws.abs(event.name).value)]
  {
    match ws.abs(event.name)
    case None => Handled(g, [])
    case Some(file) =>
      if ws.isSpec(file) || ws.isConcept(file) then
        match event.op
        case Create => OnFileAdd(g, file, ws)
        case Write => Handled(OnFileModify(g, file, ws), [])
        case Rename => OnFileRename(g, file, ws)
        case Remove => OnFileRemove(g, file, ws)
        case Other => Handled(g, [])
      else Handled(g, [])
  }

  // ---------------------------------------------------------------------
  // Properties of the handlers
  // ---------------------------------------------------------------------

  /** Events on paths that are neither specifications nor concepts, or whose path cannot be resolved, change nothing. */
  lemma IgnoredEvents(g: Gatherer, event: Event, ws: Workspace)
    requires ws.abs(event.name).None? ||
      (!ws.isSpec(ws.abs(event.name).value) && !ws.isConcept(ws.abs(event.name).value))
    ensures HandleEvent(g, event, ws) == Handled(g, [])
  {
  }

  /** A create event changes the caches exactly as a write event does. */
  lemma CreateActsAsWrite(g: Gatherer, name: string, ws: Workspace)
    ensures HandleEvent(g, Event(name, Create), ws).gatherer == HandleEvent(g, Event(name, Write), ws).gatherer
  {
  }

  /** A rename event is handled exactly as a remove event. */
  lemma RenameActsAsRemove(g: Gatherer, name: string, ws: Workspace)
    ensures HandleEvent(g, Event(name, Rename), ws) == HandleEvent(g, Event(name, Remove), ws)
  {
  }

  /** A path classified both ways is treated as a specification: the concept cache never changes for it. */
  lemma SpecClassificationWins(g: Gatherer, event: Event, ws: Workspace)
    requires ws.abs(event.name).Some?
    requires ws.isSpec(ws.abs(event.name).value)
    ensures HandleEvent(g, event, ws).gatherer.conceptsCache == g.conceptsCache
  {
  }

  /** Removal deletes one key of one list cache and never touches the catalogue. */
  lemma RemoveDeletesOneKey(g: Gatherer, name: string, ws: Workspace)
    requires ws.abs(name).Some?
    ensures var file := ws.abs(name).value;
      var r := HandleEvent(g, Event(name, Remove), ws).gatherer;
      && r.stepsCache == g.stepsCache
      && (ws.isSpec(file) ==> r.specsCache == g.specsCache - {file} && r.conceptsCache == g.conceptsCache)
      && (!ws.isSpec(file) && ws.isConcept(file) ==>
            r.conceptsCache == g.conceptsCache - {file} && r.specsCache == g.specsCache)
      && (!ws.isSpec(file) && !ws.isConcept(file) ==> r == g)
  {
  }

  /** The step values a modification of `file` offers the catalogue. */
  function ModifyBatch(file: string, ws: Workspace): seq<StepValue>
  {
    if ws.isSpec(file) then
      if |ws.parseSpecs(file)| != 0 then GetStepsFromSpec(ws.parseSpecs(file)[0], ws.createStepValue) else []
    else if ws.isConcept(file) && ws.parseConcepts(file).error.None? then
      ConceptStepValues(file, ws.parseConcepts(file).concepts, ws.createStepValue)
    else []
  }

  /** The step values an event offers the catalogue: those of the modified file for a create or a write, none otherwise. */
  function EventBatch(event: Event, ws: Workspace): seq<StepValue>
  {
    match ws.abs(event.name)
    case None => []
    case Some(file) => if event.op.Create? || event.op.Write? then ModifyBatch(file, ws) else []
  }

  /** The only thing any event does to the catalogue is offer it one batch of step values. */
  lemma EventCatalogue(g: Gatherer, event: Event, ws: Workspace)
    ensures HandleEvent(g, event, ws).gatherer.stepsCache == AddToStepsCache(g.stepsCache, EventBatch(event, ws))
  {
    var r := HandleEvent(g, event, ws).gatherer;
    if EventBatch(event, ws) == [] {
      assert AddToStepsCache(g.stepsCache, []) == g.stepsCache;
      match ws.abs(event.name)
      case None =>
      case Some(file) =>
        if (ws.isSpec(file) || ws.isConcept(file)) && (event.op.Create? || event.op.Write?) {
          assert r == OnFileModify(g, file, ws);
          if !ws.isSpec(file) && ws.isConcept(file) && ws.parseConcepts(file).error.None? {
            assert |ConceptStepValues(file, ws.parseConcepts(file).concepts, ws.createStepValue)| == 0;
          }
        }
    }
  }

  /** No event ever removes or replaces a catalogue entry. */
  lemma CatalogueOnlyGrows(g: Gatherer, event: Event, ws: Workspace)
    ensures var r := HandleEvent(g, event, ws).gatherer;
      forall k :: k in g.stepsCache ==> k in r.stepsCache && r.stepsCache[k] == g.stepsCache[k]
  {
    EventCatalogue(g, event, ws);
    AddToStepsCacheSpec(g.stepsCache, EventBatch(event, ws));
  }

  /** Every event keeps the catalogue keyed by signature. */
  lemma EventsKeepCatalogueKeyed(g: Gatherer, event: Event, ws: Workspace)
    requires KeyedBySignature(g.stepsCache)
    ensures KeyedBySignature(HandleEvent(g, event, ws).gatherer.stepsCache)
  {
    EventCatalogue(g, event, ws);
    AddToStepsCacheKeyed(g.stepsCache, EventBatch(event, ws));
  }

  /**
    Writing the same specification file twice leaves the catalogue as after
    the first write, while the file's list now holds the parsed specification
    twice: the cache entry is appended to, not replaced.
   */
  lemma RewriteSameSpec(g: Gatherer, file: string, ws: Workspace)
    requires |ws.parseSpecs(file)| != 0
    ensures var once := OnSpecFileModify(g, file, ws);
      var twice := OnSpecFileModify(once, file, ws);
      && twice.stepsCache == once.stepsCache
      && twice.specsCache[file] == ListAt(g.specsCache, file) + [ws.parseSpecs(file)[0], ws.parseSpecs(file)[0]]
  {
    var spec := ws.parseSpecs(file)[0];
    AddToStepsCacheIdempotent(g.stepsCache, GetStepsFromSpec(spec, ws.createStepValue));
  }

  /** A spec write adds exactly the first parsed specification to everything listed; a spec removal drops exactly the file's list. */
  lemma SpecEventsAndListing(g: Gatherer, file: string, ws: Workspace)
    ensures |ws.parseSpecs(file)| != 0 ==>
      Gathered(OnSpecFileModify(g, file, ws).specsCache) == Gathered(g.specsCache) + multiset{ws.parseSpecs(file)[0]}
    ensures file in g.specsCache ==>
      Gathered(OnSpecFileRemove(g, file).specsCache) + multiset(g.specsCache[file]) == Gathered(g.specsCache)
  {
    if |ws.parseSpecs(file)| != 0 {
      AppendAtGathers(g.specsCache, file, ws.parseSpecs(file)[0]);
    }
    if file in g.specsCache {
      GatheredSplit(g.specsCache, file);
    }
  }

  // ---------------------------------------------------------------------
  // Queries (specDetails.go:324-348)
  // ---------------------------------------------------------------------

  /** GetAvailableSpecs: every cached specification of every file, in whatever order the map yields the files. */
  method GetAvailableSpecs(g: Gatherer) returns (all: seq<Specification>)
    ensures multiset(all) == Gathered(g.specsCache)
  {
    all := [];
    var rest := g.specsCache;
    while rest != map[]
      invariant multiset(all) + Gathered(rest) == Gathered(g.specsCache)
      decreases |rest.Keys|
    {
      var file :| file in rest.Keys;
      GatheredSplit(rest, file);
      all := all + rest[file];
      rest := rest - {file};
    }
  }

  /**
    GetAvailableSteps: every catalogue entry exactly once, in whatever order
    the map yields them; a catalogue keyed by signature yields no signature twice.
   */
  method GetAvailableSteps(g: Gatherer) returns (steps: seq<StepValue>)
    ensures |steps| == |g.stepsCache.Keys|
    ensures forall i :: 0 <= i < |steps| ==> steps[i] in g.stepsCache.Values
    ensures forall k :: k in g.stepsCache ==> g.stepsCache[k] in steps
    ensures KeyedBySignature(g.stepsCache) ==>
      forall i, j :: 0 <= i < j < |steps| ==> steps[i].stepValue != steps[j].stepValue
  {
    steps := [];
    ghost var keys: seq<string> := [];
    var rest := g.stepsCache.Keys;
    while rest != {}
      invariant rest <= g.stepsCache.Keys
      invariant |keys| == |steps| && |steps| + |rest| == |g.stepsCache.Keys|
      invariant forall i :: 0 <= i < |keys| ==> keys[i] in g.stepsCache && keys[i] !in rest && steps[i] == g.stepsCache[keys[i]]
      invariant forall i, j :: 0 <= i < j < |keys| ==> keys[i] != keys[j]
      invariant forall k :: k in g.stepsCache && k !in rest ==> k in keys
      decreases rest
    {
      var k :| k in rest;
      assert |rest - {k}| == |rest| - 1;
      assert k !in keys;
      steps := steps + [g.stepsCache[k]];
      keys := keys + [k];
      rest := rest - {k};
    }
    ListingCovers(g.stepsCache, keys, steps);
  }

  /** A listing of a catalogue's values along pairwise different keys that reach every key lists each value. */
  lemma ListingCovers(cache: map<string, StepValue>, keys: seq<string>, steps: seq<StepValue>)
    requires |keys| == |steps|
    requires forall i :: 0 <= i < |keys| ==> keys[i] in cache && steps[i] == cache[keys[i]]
    requires forall i, j :: 0 <= i < j < |keys| ==> keys[i] != keys[j]
    requires forall k :: k in cache ==> k in keys
    ensures forall i :: 0 <= i < |steps| ==> steps[i] in cache.Values
    ensures forall k :: k in cache ==> cache[k] in steps
    ensures KeyedBySignature(cache) ==>
      forall i, j :: 0 <= i < j < |steps| ==> steps[i].stepValue != steps[j].stepValue
  {
    forall k | k in cache ensures cache[k] in steps {
      var i :| 0 <= i < |keys| && keys[i] == k;
      assert steps[i] == cache[k];
    }
  }
}
