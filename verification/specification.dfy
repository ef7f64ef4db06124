/**
  A parsed Gauge specification and the bookkeeping done on it: adding items
  while keeping the typed lists (`Scenarios`, `Contexts`, `Comments`) and the
  source-ordered `Items` in step, removing and filtering items, list views,
  tags, and one-level concept binding.

  Go pointers become values. The identity of a step object, which Go carries
  in the pointer, is the `id` field; a step's non-owning `Parent` pointer is
  the `Option<StepId>` handle of its enclosing step.
 */
module GaugeSpec {
  import opened Collections

  /** The identity of a step object (Go's pointer identity). */
  type StepId = nat

  datatype TokenKind =
    | SpecKind | TagKind | ScenarioKind | CommentKind | StepKind | TableHeader
    | TableRow | HeadingKind | TableKind | DataTableKind | TearDownKind

  datatype HeadingType = SpecHeading | ScenarioHeading
  datatype Heading = Heading(value: string, lineNo: int, headingType: HeadingType)
  datatype Comment = Comment(value: string, lineNo: int)
  datatype TearDown = TearDown(lineNo: int, value: string)
  datatype Table = Table(headers: seq<string>, rows: seq<seq<string>>)
  datatype DataTable = DataTable(table: Table)
  datatype Tags = Tags(rawValues: seq<seq<string>>)

  /** A call-site argument; these four fields are all a StepArg has. */
  datatype StepArg = StepArg(name: string, value: string, argType: string, table: Table)

  /** An argument lookup: parameter names bound to argument values, in binding order. */
  datatype ArgLookup = ArgLookup(bindings: seq<(string, StepArg)>)

  datatype Step = Step(
    id: StepId,
    value: string,
    lineNo: int,
    args: seq<StepArg>,
    isConcept: bool,
    conceptSteps: seq<Step>,
    lookup: ArgLookup,
    parent: Option<StepId>)

  datatype Scenario = Scenario(heading: Heading, steps: seq<Step>, items: seq<Item>)

  /** The closed set of item kinds a specification holds. */
  datatype Item =
    | ScenarioItem(scenario: Scenario)
    | StepItem(step: Step)
    | CommentItem(comment: Comment)
    | TagsItem(tags: Tags)
    | TableItem(table: Table)
    | DataTableItem(dataTable: DataTable)
    | TearDownItem(tearDown: TearDown)

  datatype Specification = Specification(
    heading: Heading,
    scenarios: seq<Scenario>,
    comments: seq<Comment>,
    dataTable: DataTable,
    contexts: seq<Step>,
    fileName: string,
    tags: Option<Tags>,
    items: seq<Item>,
    tearDownSteps: seq<Step>)

  datatype Concept = Concept(conceptStep: Step, fileName: string)

  function Kind(item: Item): (k: TokenKind)
    ensures k == ScenarioKind <==> item.ScenarioItem?
  {
    match item
    case ScenarioItem(_) => ScenarioKind
    case StepItem(_) => StepKind
    case CommentItem(_) => CommentKind
    case TagsItem(_) => TagKind
    case TableItem(_) => TableKind
    case DataTableItem(_) => DataTableKind
    case TearDownItem(_) => TearDownKind
  }

  predicate IsScenario(item: Item)
  {
    Kind(item) == ScenarioKind
  }

  predicate NotScenario(item: Item)
  {
    !IsScenario(item)
  }

  /** The scenarios among `items`, in item order. */
  function ScenariosOf(items: seq<Item>): seq<Scenario>
  {
    if |items| == 0 then []
    else (if items[0].ScenarioItem? then [items[0].scenario] else []) + ScenariosOf(items[1..])
  }

  lemma {:induction false} ScenariosOfAppend(a: seq<Item>, b: seq<Item>)
    ensures ScenariosOf(a + b) == ScenariosOf(a) + ScenariosOf(b)
  {
    if |a| == 0 {
      assert a + b == b;
    } else {
      assert (a + b)[0] == a[0];
      assert (a + b)[1..] == a[1..] + b;
      ScenariosOfAppend(a[1..], b);
    }
  }

  /** `Scenarios` lists exactly the scenario items of `Items`, in the same order. */
  predicate ScenariosInOrder(spec: Specification)
  {
    spec.scenarios == ScenariosOf(spec.items)
  }

  /** `Scenarios` holds the scenario items of `Items`, counted with multiplicity, in any order. */
  predicate ScenariosMatch(spec: Specification)
  {
    multiset(spec.scenarios) == multiset(ScenariosOf(spec.items))
  }

  /** The steps among `items`, in item order. */
  function StepsOf(items: seq<Item>): seq<Step>
  {
    if |items| == 0 then []
    else (if items[0].StepItem? then [items[0].step] else []) + StepsOf(items[1..])
  }

  lemma {:induction false} StepsOfAppend(a: seq<Item>, b: seq<Item>)
    ensures StepsOf(a + b) == StepsOf(a) + StepsOf(b)
  {
    if |a| == 0 {
      assert a + b == b;
    } else {
      assert (a + b)[0] == a[0];
      assert (a + b)[1..] == a[1..] + b;
      StepsOfAppend(a[1..], b);
    }
  }

  /** The step items of `Items` are the contexts followed by the teardown steps, in order. */
  predicate StepsInOrder(spec: Specification)
  {
    StepsOf(spec.items) == spec.contexts + spec.tearDownSteps
  }

  /** A scenario's step items are its `Steps`, in order. */
  predicate ScenarioStepsInOrder(scenario: Scenario)
  {
    StepsOf(scenario.items) == scenario.steps
  }

  predicate Distinct(s: seq<Scenario>)
  {
    forall i, j :: 0 <= i < j < |s| ==> s[i] != s[j]
  }

  // ---------------------------------------------------------------------
  // Adding items (specification.go:113-139)
  // ---------------------------------------------------------------------

  function AddItem(spec: Specification, item: Item): (r: Specification)
    ensures |r.items| == |spec.items| + 1
    ensures r.items[..|spec.items|] == spec.items && r.items[|spec.items|] == item
    ensures r.(items := spec.items) == spec
  {
    spec.(items := spec.items + [item])
  }

  function AddScenario(spec: Specification, scenario: Scenario): (r: Specification)
    ensures r.scenarios == spec.scenarios + [scenario]
    ensures r.items == spec.items + [ScenarioItem(scenario)]
    ensures r.(scenarios := spec.scenarios, items := spec.items) == spec
    ensures ScenariosInOrder(spec) ==> ScenariosInOrder(r)
  {
    ScenariosOfAppend(spec.items, [ScenarioItem(scenario)]);
    AddItem(spec.(scenarios := spec.scenarios + [scenario]), ScenarioItem(scenario))
  }

  function AddContext(spec: Specification, step: Step): (r: Specification)
    ensures r.contexts == spec.contexts + [step]
    ensures r.items == spec.items + [StepItem(step)]
    ensures r.(contexts := spec.contexts, items := spec.items) == spec
    ensures ScenariosOf(r.items) == ScenariosOf(spec.items)
    ensures StepsInOrder(spec) && spec.tearDownSteps == [] ==> StepsInOrder(r)
  {
    ScenariosOfAppend(spec.items, [StepItem(step)]);
    StepsOfAppend(spec.items, [StepItem(step)]);
    assert StepsOf([StepItem(step)]) == [step];
    AddItem(spec.(contexts := spec.contexts + [step]), StepItem(step))
  }

  function AddComment(spec: Specification, comment: Comment): (r: Specification)
    ensures r.comments == spec.comments + [comment]
    ensures r.items == spec.items + [CommentItem(comment)]
    ensures r.(comments := spec.comments, items := spec.items) == spec
    ensures ScenariosOf(r.items) == ScenariosOf(spec.items)
  {
    ScenariosOfAppend(spec.items, [CommentItem(comment)]);
    AddItem(spec.(comments := spec.comments + [comment]), CommentItem(comment))
  }

  /** The most recently added scenario; Go panics when there is none. */
  function LatestScenario(spec: Specification): (r: Scenario)
    requires |spec.scenarios| > 0
    ensures r in spec.scenarios
    ensures spec.scenarios == spec.scenarios[..|spec.scenarios| - 1] + [r]
  {
    spec.scenarios[|spec.scenarios| - 1]
  }

  lemma AddScenarioThenLatest(spec: Specification, scenario: Scenario)
    ensures LatestScenario(AddScenario(spec, scenario)) == scenario
  {
  }

  // ---------------------------------------------------------------------
  // Removing items (specification.go:175-198, 292-299)
  // ---------------------------------------------------------------------

  /** getIndexFor: the first index holding a scenario structurally equal to `x`, or -1. */
  function GetIndexFor(x: Scenario, scenarios: seq<Scenario>): (r: int)
    ensures -1 <= r < |scenarios|
    ensures r == -1 <==> x !in scenarios
    ensures r >= 0 ==> scenarios[r] == x && x !in scenarios[..r]
  {
    if |scenarios| == 0 then -1
    else if scenarios[0] == x then 0
    else
      var k := GetIndexFor(x, scenarios[1..]);
      assert scenarios == [scenarios[0]] + scenarios[1..];
      if k == -1 then -1
      else
        assert scenarios[..k + 1] == [scenarios[0]] + scenarios[1..][..k];
        k + 1
  }

  /** removeScenario: drops the first entry equal to `x`; Go panics when there is none. */
  function RemoveScenario(scenarios: seq<Scenario>, x: Scenario): (r: seq<Scenario>)
    requires x in scenarios
    ensures var j := GetIndexFor(x, scenarios); r == scenarios[..j] + scenarios[j + 1..]
    ensures multiset(r) + multiset{x} == multiset(scenarios)
  {
    var index := GetIndexFor(x, scenarios);
    var r :=
      if |scenarios| - 1 == index then scenarios[..index]
      else if index == 0 then scenarios[index + 1..]
      else scenarios[..index] + scenarios[index + 1..];
    assert scenarios == scenarios[..index] + [x] + scenarios[index + 1..];
    assert r == scenarios[..index] + scenarios[index + 1..];
    r
  }

  /** removeItem: deletes item `i` and, for a scenario, its entry in `Scenarios`. */
  function RemoveItem(spec: Specification, i: int): (r: Specification)
    requires 0 <= i < |spec.items|
    requires spec.items[i].ScenarioItem? ==> spec.items[i].scenario in spec.scenarios
    ensures |r.items| == |spec.items| - 1
    ensures forall k :: 0 <= k < i ==> r.items[k] == spec.items[k]
    ensures forall k :: i <= k < |r.items| ==> r.items[k] == spec.items[k + 1]
    ensures !IsScenario(spec.items[i]) ==> r.scenarios == spec.scenarios
    ensures IsScenario(spec.items[i]) ==>
      multiset(r.scenarios) + multiset{spec.items[i].scenario} == multiset(spec.scenarios)
    ensures r.(items := spec.items, scenarios := spec.scenarios) == spec
  {
    var item := spec.items[i];
    var items :=
      if |spec.items| - 1 == i then spec.items[..i]
      else if 0 == i then spec.items[i + 1..]
      else spec.items[..i] + spec.items[i + 1..];
    var s := spec.(items := items);
    if IsScenario(item) then s.(scenarios := RemoveScenario(s.scenarios, item.scenario)) else s
  }

  /** The three branches of removeItem all amount to cutting element `i` out of `Items`. */
  lemma RemoveItemCutsOne(spec: Specification, i: int)
    requires 0 <= i < |spec.items|
    requires spec.items[i].ScenarioItem? ==> spec.items[i].scenario in spec.scenarios
    ensures RemoveItem(spec, i).items == spec.items[..i] + spec.items[i + 1..]
  {
  }

  lemma {:induction false} ScenariosOfCut(items: seq<Item>, i: int)
    requires 0 <= i < |items|
    ensures multiset(ScenariosOf(items)) ==
      multiset(ScenariosOf(items[..i] + items[i + 1..])) + multiset(ScenariosOf([items[i]]))
  {
    assert items == items[..i] + [items[i]] + items[i + 1..];
    ScenariosOfAppend(items[..i] + [items[i]], items[i + 1..]);
    ScenariosOfAppend(items[..i], [items[i]]);
    ScenariosOfAppend(items[..i], items[i + 1..]);
  }

  /** removeItem keeps `Scenarios` and the scenario items of `Items` equal as multisets. */
  lemma RemoveItemKeepsMatch(spec: Specification, i: int)
    requires 0 <= i < |spec.items|
    requires ScenariosMatch(spec)
    ensures spec.items[i].ScenarioItem? ==> spec.items[i].scenario in spec.scenarios
    ensures ScenariosMatch(RemoveItem(spec, i))
  {
    var items := spec.items;
    var rest := items[..i] + items[i + 1..];
    ScenariosOfCut(items, i);
    if items[i].ScenarioItem? {
      var x := items[i].scenario;
      assert ScenariosOf([items[i]]) == [x];
      assert multiset(ScenariosOf(items)) == multiset(ScenariosOf(rest)) + multiset{x};
      assert x in multiset(spec.scenarios);
      RemoveItemCutsOne(spec, i);
      var r := RemoveItem(spec, i);
      assert r.items == rest;
      var a := multiset(r.scenarios);
      var b := multiset(ScenariosOf(rest));
      assert a + multiset{x} == b + multiset{x};
      MultisetCancel(a, b, x);
    } else {
      assert ScenariosOf([items[i]]) == [];
      RemoveItemCutsOne(spec, i);
    }
  }

  lemma MultisetCancel<T>(a: multiset<T>, b: multiset<T>, x: T)
    requires a + multiset{x} == b + multiset{x}
    ensures a == b
  {
    assert forall y :: a[y] == (a + multiset{x})[y] - (if y == x then 1 else 0);
    assert forall y :: b[y] == (b + multiset{x})[y] - (if y == x then 1 else 0);
  }

  /** How many scenario items precede position `i`. */
  lemma {:induction false} ScenarioPosition(items: seq<Item>, i: int)
    requires 0 <= i < |items| && items[i].ScenarioItem?
    ensures var j := |ScenariosOf(items[..i])|;
      && j < |ScenariosOf(items)|
      && ScenariosOf(items)[j] == items[i].scenario
      && ScenariosOf(items)[..j] == ScenariosOf(items[..i])
      && ScenariosOf(items)[j + 1..] == ScenariosOf(items[i + 1..])
  {
    assert items == items[..i] + ([items[i]] + items[i + 1..]);
    ScenariosOfAppend(items[..i], [items[i]] + items[i + 1..]);
    ScenariosOfAppend([items[i]], items[i + 1..]);
    assert ScenariosOf([items[i]]) == [items[i].scenario];
  }

  /** With pairwise different scenarios, removeItem keeps `Scenarios` in item order. */
  lemma RemoveItemKeepsOrder(spec: Specification, i: int)
    requires 0 <= i < |spec.items|
    requires ScenariosInOrder(spec) && Distinct(spec.scenarios)
    ensures spec.items[i].ScenarioItem? ==> spec.items[i].scenario in spec.scenarios
    ensures ScenariosInOrder(RemoveItem(spec, i)) && Distinct(RemoveItem(spec, i).scenarios)
  {
    if spec.items[i].ScenarioItem? {
      RemoveScenarioItemKeepsOrder(spec, i);
    } else {
      RemoveItemCutsOne(spec, i);
      ScenarioNonePosition(spec.items, i);
    }
  }

  /** The scenario-item case of RemoveItemKeepsOrder: the item and its scenario sit at matching positions. */
  lemma RemoveScenarioItemKeepsOrder(spec: Specification, i: int)
    requires 0 <= i < |spec.items| && spec.items[i].ScenarioItem?
    requires ScenariosInOrder(spec) && Distinct(spec.scenarios)
    ensures spec.items[i].scenario in spec.scenarios
    ensures ScenariosInOrder(RemoveItem(spec, i)) && Distinct(RemoveItem(spec, i).scenarios)
  {
    var items := spec.items;
    ScenariosOfAppend(items[..i], items[i + 1..]);
    ScenarioPosition(items, i);
    var j := |ScenariosOf(items[..i])|;
    var x := items[i].scenario;
    assert spec.scenarios[j] == x;
    RemoveItemCutsOne(spec, i);
    assert GetIndexFor(x, spec.scenarios) == j;
    var r := RemoveItem(spec, i).scenarios;
    assert r == spec.scenarios[..j] + spec.scenarios[j + 1..];
    DistinctCut(spec.scenarios, j);
  }

  lemma DistinctCut(s: seq<Scenario>, j: int)
    requires 0 <= j < |s| && Distinct(s)
    ensures Distinct(s[..j] + s[j + 1..])
  {
    var t := s[..j] + s[j + 1..];
    forall a, b | 0 <= a < b < |t| ensures t[a] != t[b] {
      var a' := if a < j then a else a + 1;
      var b' := if b < j then b else b + 1;
      assert t[a] == s[a'] && t[b] == s[b'];
    }
  }

  lemma {:induction false} ScenarioNonePosition(items: seq<Item>, i: int)
    requires 0 <= i < |items| && !items[i].ScenarioItem?
    ensures ScenariosOf(items) == ScenariosOf(items[..i] + items[i + 1..])
  {
    assert items == items[..i] + ([items[i]] + items[i + 1..]);
    ScenariosOfAppend(items[..i], [items[i]] + items[i + 1..]);
    ScenariosOfAppend([items[i]], items[i + 1..]);
    ScenariosOfAppend(items[..i], items[i + 1..]);
    assert ScenariosOf([items[i]]) == [];
  }

  /** Adding a new scenario and then removing its item restores the specification. */
  lemma AddThenRemoveScenario(spec: Specification, scenario: Scenario)
    requires scenario !in spec.scenarios
    ensures RemoveItem(AddScenario(spec, scenario), |spec.items|) == spec
  {
    var added := AddScenario(spec, scenario);
    assert GetIndexFor(scenario, added.scenarios) == |spec.scenarios|;
    assert added.items[..|spec.items|] == spec.items;
  }

  // ---------------------------------------------------------------------
  // Filter (specification.go:283-290)
  // ---------------------------------------------------------------------

  function Not(f: Item -> bool): Item -> bool
  {
    x => !f(x)
  }

  /** The loop state of Filter after `j` original items have been examined. */
  predicate FilterState(spec: Specification, f: Item -> bool, r: Specification, i: int, j: int)
  {
    && FilterItems(spec.items, f, r.items, i, j)
    && ScenariosMatch(r)
    && (ScenariosInOrder(spec) && Distinct(spec.scenarios) ==> ScenariosInOrder(r) && Distinct(r.scenarios))
    && r.(items := spec.items, scenarios := spec.scenarios) == spec
  }

  /** Filter's view of the items when item `i` of the current list is original item `j`. */
  predicate FilterItems(orig: seq<Item>, f: Item -> bool, cur: seq<Item>, i: int, j: int)
  {
    && 0 <= i <= |cur| && 0 <= j <= |orig|
    && cur[..i] == Filtered(orig[..j], Not(f))
    && cur[i..] == orig[j..]
  }

  lemma FilterItemsStep(orig: seq<Item>, f: Item -> bool, cur: seq<Item>, i: int, j: int)
    requires FilterItems(orig, f, cur, i, j) && i < |cur|
    ensures j < |orig| && cur[i] == orig[j]
    ensures f(cur[i]) ==> FilterItems(orig, f, cur[..i] + cur[i + 1..], i, j + 1)
    ensures !f(cur[i]) ==> FilterItems(orig, f, cur, i + 1, j + 1)
  {
    assert |orig| - j == |cur| - i;
    assert cur[i] == orig[j] by { assert cur[i..][0] == orig[j..][0]; }
    FilteredSnoc(orig[..j], orig[j], Not(f));
    assert orig[..j + 1] == orig[..j] + [orig[j]];
    assert orig[j + 1..] == orig[j..][1..];
    assert cur[i + 1..] == cur[i..][1..];
    if f(cur[i]) {
      var next := cur[..i] + cur[i + 1..];
      assert next[..i] == cur[..i];
      assert next[i..] == cur[i + 1..];
    } else {
      assert cur[..i + 1] == cur[..i] + [cur[i]];
    }
  }

  /** One iteration of Filter that removes item `i`. */
  lemma FilterStepRemove(spec: Specification, f: Item -> bool, r: Specification, i: int, j: int)
    requires FilterState(spec, f, r, i, j) && i < |r.items| && f(r.items[i])
    ensures r.items[i].ScenarioItem? ==> r.items[i].scenario in r.scenarios
    ensures FilterState(spec, f, RemoveItem(r, i), i, j + 1)
  {
    FilterItemsStep(spec.items, f, r.items, i, j);
    RemoveItemKeepsMatch(r, i);
    if ScenariosInOrder(spec) && Distinct(spec.scenarios) {
      RemoveItemKeepsOrder(r, i);
    }
    RemoveItemCutsOne(r, i);
  }

  /** One iteration of Filter that keeps item `i`. */
  lemma FilterStepKeep(spec: Specification, f: Item -> bool, r: Specification, i: int, j: int)
    requires FilterState(spec, f, r, i, j) && i < |r.items| && !f(r.items[i])
    ensures FilterState(spec, f, r, i + 1, j + 1)
  {
    FilterItemsStep(spec.items, f, r.items, i, j);
  }

  /**
    Filter: removes, in one left-to-right pass, every item for which `f` holds.
    After a removal the index is stepped back so the item that slid into the
    gap is examined next.
   */
  method Filter(spec: Specification, f: Item -> bool) returns (r: Specification)
    requires ScenariosMatch(spec)
    ensures r.items == Filtered(spec.items, Not(f))
    ensures ScenariosMatch(r)
    ensures ScenariosInOrder(spec) && Distinct(spec.scenarios) ==> ScenariosInOrder(r)
    ensures r.(items := spec.items, scenarios := spec.scenarios) == spec
  {
    r := spec;
    var i := 0;
    ghost var j := 0;
    while i < |r.items|
      invariant FilterState(spec, f, r, i, j)
      decreases |r.items| - i
    {
      if f(r.items[i]) {
        FilterStepRemove(spec, f, r, i, j);
        r := RemoveItem(r, i);
        i := i - 1;
      } else {
        FilterStepKeep(spec, f, r, i, j);
      }
      i := i + 1;
      j := j + 1;
    }
    FilterDone(spec, f, r, i, j);
  }

  /** When Filter's index reaches the end, every original item has been examined. */
  lemma FilterDone(spec: Specification, f: Item -> bool, r: Specification, i: int, j: int)
    requires FilterState(spec, f, r, i, j) && i >= |r.items|
    ensures r.items == Filtered(spec.items, Not(f))
  {
    assert spec.items[j..] == r.items[i..] == [];
    assert spec.items[..j] == spec.items;
    assert r.items == r.items[..i];
  }

  // ---------------------------------------------------------------------
  // List views (specification.go:229-237, 265-273)
  // ---------------------------------------------------------------------

  /** GetSpecItems: every item that is not a scenario, in order. */
  method GetSpecItems(spec: Specification) returns (r: seq<Item>)
    ensures r == Filtered(spec.items, NotScenario)
  {
    var items := spec.items;
    r := [];
    var i := 0;
    while i < |items|
      invariant 0 <= i <= |items|
      invariant r == Filtered(items[..i], NotScenario)
    {
      var item := items[i];
      assert items[..i + 1] == items[..i] + [item];
      FilteredSnoc(items[..i], item, NotScenario);
      if Kind(item) != ScenarioKind {
        r := r + [item];
      }
      i := i + 1;
    }
    assert items[..i] == items;
  }

  /** The scenario's own items after a scenario item, nothing after any other item. */
  function Nested(item: Item): seq<Item>
  {
    if item.ScenarioItem? then item.scenario.items else []
  }

  /** Each item immediately followed by its nested items. */
  function Expanded(items: seq<Item>): seq<Item>
  {
    if |items| == 0 then [] else [items[0]] + Nested(items[0]) + Expanded(items[1..])
  }

  lemma {:induction false} ExpandedAppend(a: seq<Item>, b: seq<Item>)
    ensures Expanded(a + b) == Expanded(a) + Expanded(b)
  {
    if |a| == 0 {
      assert a + b == b;
    } else {
      assert (a + b)[0] == a[0];
      assert (a + b)[1..] == a[1..] + b;
      ExpandedAppend(a[1..], b);
    }
  }

  /** AllItems: the items with each scenario's own items spliced in right after it. */
  method AllItems(spec: Specification) returns (r: seq<Item>)
    ensures r == Expanded(spec.items)
    ensures |r| == |spec.items| + TotalLength(MapSeq(spec.items, Nested))
  {
    r := [];
    var i := 0;
    while i < |spec.items|
      invariant 0 <= i <= |spec.items|
      invariant r == Expanded(spec.items[..i])
    {
      ExpandedAppend(spec.items[..i], [spec.items[i]]);
      assert spec.items[..i + 1] == spec.items[..i] + [spec.items[i]];
      r := r + [spec.items[i]];
      if Kind(spec.items[i]) == ScenarioKind {
        r := r + spec.items[i].scenario.items;
      }
      i := i + 1;
    }
    assert spec.items[..i] == spec.items;
    ExpandedLength(spec.items);
  }

  lemma {:induction false} ExpandedLength(items: seq<Item>)
    ensures |Expanded(items)| == |items| + TotalLength(MapSeq(items, Nested))
  {
    if |items| != 0 {
      ExpandedLength(items[1..]);
      assert MapSeq(items, Nested)[1..] == MapSeq(items[1..], Nested);
    }
  }

  // ---------------------------------------------------------------------
  // Tags (specification.go:156-161, 337-342)
  // ---------------------------------------------------------------------

  /** Tags.Values: the raw tag lists concatenated in order. */
  method TagValues(tags: Tags) returns (r: seq<string>)
    ensures r == Flatten(tags.rawValues)
  {
    r := [];
    var i := 0;
    while i < |tags.rawValues|
      invariant 0 <= i <= |tags.rawValues|
      invariant r + Flatten(tags.rawValues[i..]) == Flatten(tags.rawValues)
    {
      assert tags.rawValues[i..][1..] == tags.rawValues[i + 1..];
      r := r + tags.rawValues[i];
      i := i + 1;
    }
  }

  /** NTags: 0 without tags, otherwise the total number of tag values. */
  method NTags(spec: Specification) returns (n: int)
    ensures spec.tags.None? ==> n == 0
    ensures spec.tags.Some? ==> n == TotalLength(spec.tags.value.rawValues)
  {
    if spec.tags.None? {
      return 0;
    }
    var values := TagValues(spec.tags.value);
    FlattenLength(spec.tags.value.rawValues);
    n := |values|;
  }

  // ---------------------------------------------------------------------
  // Concept binding (specification.go:67-111, 200-208)
  // ---------------------------------------------------------------------

  /** ArgLookup.AddArgValue, a collaborator: binds a parameter or fails. */
  type AddArgValue = (ArgLookup, string, StepArg) -> Result<ArgLookup, Error>

  /** The concept collaborators: dictionary search, deep copy and argument binding. */
  datatype Expander = Expander(
    search: string -> Option<Concept>,
    getCopy: Step -> Result<Step, Error>,
    addArgValue: AddArgValue)

  /**
    The lookup after binding the first `k` parameters in ascending order, each
    to its call-site argument, or the first error met on the way.
   */
  function BindFirst(lookup: ArgLookup, conceptArgs: seq<StepArg>, stepArgs: seq<StepArg>,
                     k: nat, add: AddArgValue): Result<ArgLookup, Error>
    requires k <= |stepArgs| && k <= |conceptArgs|
  {
    if k == 0 then Success(lookup)
    else match BindFirst(lookup, conceptArgs, stepArgs, k - 1, add)
      case Failure(e) => Failure(e)
      case Success(l) => add(l, conceptArgs[k - 1].value, stepArgs[k - 1])
  }

  /** Binding `k + 1` parameters is binding the first one and then `k` more. */
  lemma {:induction false} BindFirstShift(lookup: ArgLookup, conceptArgs: seq<StepArg>,
                                          stepArgs: seq<StepArg>, k: nat, add: AddArgValue)
    requires k + 1 <= |stepArgs| && k + 1 <= |conceptArgs|
    ensures BindFirst(lookup, conceptArgs, stepArgs, k + 1, add) ==
      match add(lookup, conceptArgs[0].value, stepArgs[0])
      case Failure(e) => Failure(e)
      case Success(l) => BindFirst(l, conceptArgs[1..], stepArgs[1..], k, add)
  {
    if k != 0 {
      BindFirstShift(lookup, conceptArgs, stepArgs, k - 1, add);
    }
  }

  /**
    PopulateConceptLookup never indexes `conceptArgs` out of range: either the
    call site passes no more arguments than the concept declares, or a binding
    fails before the loop reaches the first argument without a parameter.
   */
  predicate BindingInRange(lookup: ArgLookup, conceptArgs: seq<StepArg>, stepArgs: seq<StepArg>, add: AddArgValue)
  {
    |stepArgs| <= |conceptArgs| || BindFirst(lookup, conceptArgs, stepArgs, |conceptArgs|, add).Failure?
  }

  /**
    PopulateConceptLookup: binds `conceptArgs[i].value` to (a field-wise copy of)
    `stepArgs[i]` for ascending `i`, stopping at the first error. Go indexes
    `conceptArgs` by the positions of `stepArgs`, so it panics when the loop
    reaches an argument the concept has no parameter for.
   */
  function PopulateConceptLookup(lookup: ArgLookup, conceptArgs: seq<StepArg>,
                                 stepArgs: seq<StepArg>, add: AddArgValue): (r: Effect<ArgLookup>)
    requires BindingInRange(lookup, conceptArgs, stepArgs, add)
    ensures r.err.None? <==>
      |stepArgs| <= |conceptArgs| && BindFirst(lookup, conceptArgs, stepArgs, |stepArgs|, add).Success?
    ensures r.err.None? ==> Success(r.state) == BindFirst(lookup, conceptArgs, stepArgs, |stepArgs|, add)
    ensures r.err.Some? ==>
      exists k :: (0 <= k < |stepArgs| && k < |conceptArgs|
        && BindFirst(lookup, conceptArgs, stepArgs, k, add) == Success(r.state)
        && add(r.state, conceptArgs[k].value, stepArgs[k]) == Failure(r.err.value))
    decreases |stepArgs|
  {
    if |stepArgs| == 0 then Effect(lookup, None)
    else
      assert BindFirst(lookup, conceptArgs, stepArgs, 0, add) == Success(lookup);
      BindFirstShiftAll(lookup, conceptArgs, stepArgs, add);
      match add(lookup, conceptArgs[0].value, stepArgs[0])
      case Failure(e) =>
        assert BindFirst(lookup, conceptArgs, stepArgs, 0, add) == Success(lookup);
        Effect(lookup, Some(e))
      case Success(l) =>
        var rest := PopulateConceptLookup(l, conceptArgs[1..], stepArgs[1..], add);
        if rest.err.Some? then
          var k :| 0 <= k < |stepArgs| - 1 && k < |conceptArgs| - 1
            && BindFirst(l, conceptArgs[1..], stepArgs[1..], k, add) == Success(rest.state)
            && add(rest.state, conceptArgs[1..][k].value, stepArgs[1..][k]) == Failure(rest.err.value);
          BindFirstShift(lookup, conceptArgs, stepArgs, k, add);
          rest
        else
          rest
  }

  /**
    The shift of BindFirst at both of the lengths PopulateConceptLookup
    looks at: the call site's, when it fits, and the concept's, when the call
    site passes more.
   */
  lemma BindFirstShiftAll(lookup: ArgLookup, conceptArgs: seq<StepArg>, stepArgs: seq<StepArg>, add: AddArgValue)
    requires 0 < |stepArgs| && 0 < |conceptArgs|
    ensures |stepArgs| <= |conceptArgs| ==>
      BindFirst(lookup, conceptArgs, stepArgs, |stepArgs|, add) ==
        match add(lookup, conceptArgs[0].value, stepArgs[0])
        case Failure(e) => Failure(e)
        case Success(l) => BindFirst(l, conceptArgs[1..], stepArgs[1..], |stepArgs| - 1, add)
    ensures |conceptArgs| < |stepArgs| ==>
      BindFirst(lookup, conceptArgs, stepArgs, |conceptArgs|, add) ==
        match add(lookup, conceptArgs[0].value, stepArgs[0])
        case Failure(e) => Failure(e)
        case Success(l) => BindFirst(l, conceptArgs[1..], stepArgs[1..], |conceptArgs| - 1, add)
  {
    if |stepArgs| <= |conceptArgs| {
      BindFirstShift(lookup, conceptArgs, stepArgs, |stepArgs| - 1, add);
    } else {
      BindFirstShift(lookup, conceptArgs, stepArgs, |conceptArgs| - 1, add);
    }
  }

  /** Sets the parent handle of every step in `steps`, and only of those steps. */
  function WithParent(steps: seq<Step>, parent: StepId): (r: seq<Step>)
    ensures |r| == |steps|
    ensures forall i :: 0 <= i < |steps| ==> r[i] == steps[i].(parent := Some(parent))
  {
    seq(|steps|, i requires 0 <= i < |steps| => steps[i].(parent := Some(parent)))
  }

  /** createConceptStep does not panic: a successful copy's lookup takes the call-site arguments in range. */
  predicate CreateInRange(concept: Step, original: Step, ex: Expander)
  {
    ex.getCopy(concept).Success? ==>
      BindingInRange(ex.getCopy(concept).value.lookup, concept.args, original.args, ex.addArgValue)
  }

  /**
    createConceptStep: overwrites `original` with a deep copy of the concept's
    root step (CopyFrom copies every field; the object keeps its identity),
    restores the call-site arguments, points each immediate child back at
    `original`, and binds the concept's parameters in the copied lookup.
   */
  function CreateConceptStep(concept: Step, original: Step, ex: Expander): (r: Effect<Step>)
    requires CreateInRange(concept, original, ex)
    ensures ex.getCopy(concept).Failure? ==> r == Effect(original, Some(ex.getCopy(concept).error))
    ensures ex.getCopy(concept).Success? ==>
      var copy := ex.getCopy(concept).value;
      var bound := PopulateConceptLookup(copy.lookup, concept.args, original.args, ex.addArgValue);
      && r.state.id == original.id
      && r.state.args == original.args
      && r.state.value == copy.value && r.state.lineNo == copy.lineNo
      && r.state.isConcept == copy.isConcept && r.state.parent == copy.parent
      && |r.state.conceptSteps| == |copy.conceptSteps|
      && (forall i :: 0 <= i < |copy.conceptSteps| ==>
            r.state.conceptSteps[i].parent == Some(original.id)
            && r.state.conceptSteps[i].conceptSteps == copy.conceptSteps[i].conceptSteps
            && r.state.conceptSteps[i] == copy.conceptSteps[i].(parent := Some(original.id)))
      && r.state.lookup == bound.state
      && r.err == bound.err
  {
    match ex.getCopy(concept)
    case Failure(e) => Effect(original, Some(e))
    case Success(stepCopy) =>
      var copied := stepCopy.(id := original.id);
      var restored := copied.(args := original.args);
      var linked := restored.(conceptSteps := WithParent(restored.conceptSteps, original.id));
      var bound := PopulateConceptLookup(linked.lookup, concept.args, linked.args, ex.addArgValue);
      Effect(linked.(lookup := bound.state), bound.err)
  }

  /**
    When the copy succeeds, createConceptStep succeeds exactly when every
    call-site argument has a parameter and binds, and the step's lookup is
    then the copy's lookup with all of them bound; on failure the lookup
    holds the bindings made before the first failing one, whose error is
    returned.
   */
  lemma CreateConceptStepBinds(concept: Step, original: Step, ex: Expander)
    requires CreateInRange(concept, original, ex) && ex.getCopy(concept).Success?
    ensures var copy := ex.getCopy(concept).value;
      var r := CreateConceptStep(concept, original, ex);
      && (r.err.None? <==>
            (|original.args| <= |concept.args|
             && BindFirst(copy.lookup, concept.args, original.args, |original.args|, ex.addArgValue).Success?))
      && (r.err.None? ==>
            Success(r.state.lookup) == BindFirst(copy.lookup, concept.args, original.args, |original.args|, ex.addArgValue))
      && (r.err.Some? ==>
            exists k :: (0 <= k < |original.args| && k < |concept.args|
            && BindFirst(copy.lookup, concept.args, original.args, k, ex.addArgValue) == Success(r.state.lookup)
            && ex.addArgValue(r.state.lookup, concept.args[k].value, original.args[k]) == Failure(r.err.value)))
  {
  }

  /** processConceptStep does not panic on `step`. */
  predicate ExpandInRange(step: Step, ex: Expander)
  {
    ex.search(step.value).Some? ==> CreateInRange(ex.search(step.value).value.conceptStep, step, ex)
  }

  /** processConceptStep: expands a step whose text names a concept; leaves any other step alone. */
  function ProcessConceptStep(step: Step, ex: Expander): (r: Effect<Step>)
    requires ExpandInRange(step, ex)
    ensures ex.search(step.value).None? ==> r == Effect(step, None)
    ensures ex.search(step.value).Some? ==>
      r == CreateConceptStep(ex.search(step.value).value.conceptStep, step, ex)
  {
    match ex.search(step.value)
    case Some(c) => CreateConceptStep(c.conceptStep, step, ex)
    case None => Effect(step, None)
  }

  /**
    A pass over `steps` does not panic: every step it reaches, up to and
    including the first one that fails, is expanded in range.
   */
  predicate InRangeUntilError(steps: seq<Step>, ex: Expander)
    decreases |steps|
  {
    |steps| == 0 ||
      (ExpandInRange(steps[0], ex) &&
        (ProcessConceptStep(steps[0], ex).err.None? ==> InRangeUntilError(steps[1..], ex)))
  }

  /**
    Reference semantics of a pass over `steps`: each step is processed in
    order; at the first error the failing step keeps its partial state, the
    rest are left untouched, and that error is returned.
   */
  function ProcessAll(steps: seq<Step>, ex: Expander): (r: Effect<seq<Step>>)
    requires InRangeUntilError(steps, ex)
    ensures |r.state| == |steps|
    decreases |steps|
  {
    if |steps| == 0 then Effect([], None)
    else
      var first := ProcessConceptStep(steps[0], ex);
      if first.err.Some? then Effect([first.state] + steps[1..], first.err)
      else
        var rest := ProcessAll(steps[1..], ex);
        Effect([first.state] + rest.state, rest.err)
  }

  /** A pass over `a + b` is safe exactly when the pass over `a` is, and, if that one raises no error, the pass over `b` is. */
  lemma {:induction false} InRangeAppend(a: seq<Step>, b: seq<Step>, ex: Expander)
    ensures InRangeUntilError(a + b, ex) <==>
      InRangeUntilError(a, ex) && (ProcessAll(a, ex).err.None? ==> InRangeUntilError(b, ex))
    decreases |a|
  {
    if |a| == 0 {
      assert a + b == b;
    } else {
      assert (a + b)[0] == a[0];
      assert (a + b)[1..] == a[1..] + b;
      InRangeAppend(a[1..], b, ex);
    }
  }

  /** A pass over `a + b` is a pass over `a`, then, only if that succeeded, a pass over `b`. */
  lemma {:induction false} ProcessAllAppend(a: seq<Step>, b: seq<Step>, ex: Expander)
    requires InRangeUntilError(a + b, ex)
    ensures InRangeUntilError(a, ex)
    ensures ProcessAll(a, ex).err.None? ==> InRangeUntilError(b, ex)
    ensures var pa := ProcessAll(a, ex);
      ProcessAll(a + b, ex) ==
        if pa.err.Some? then Effect(pa.state + b, pa.err)
        else Effect(pa.state + ProcessAll(b, ex).state, ProcessAll(b, ex).err)
    decreases |a|
  {
    InRangeAppend(a, b, ex);
    if |a| == 0 {
      assert a + b == b;
      assert ProcessAll(a, ex) == Effect([], None);
      assert [] + ProcessAll(b, ex).state == ProcessAll(b, ex).state;
    } else {
      assert (a + b)[0] == a[0];
      assert (a + b)[1..] == a[1..] + b;
      var first := ProcessConceptStep(a[0], ex);
      if first.err.Some? {
        assert ([first.state] + a[1..]) + b == [first.state] + (a[1..] + b);
      } else {
        ProcessAllAppend(a[1..], b, ex);
        var pa1 := ProcessAll(a[1..], ex);
        if pa1.err.Some? {
          assert ([first.state] + pa1.state) + b == [first.state] + (pa1.state + b);
        } else {
          var pb := ProcessAll(b, ex);
          assert ([first.state] + pa1.state) + pb.state == [first.state] + (pa1.state + pb.state);
        }
      }
    }
  }

  /**
    `items` after the objects they point at were updated in place. In Go an
    item and the typed list share one pointer, so an update through the list
    shows in `Items` too; here the k-th scenario item takes `scenarios[k]` and
    the k-th step item takes `steps[k]`. An item past the end of its list, and
    every item of another kind, keeps its value.
   */
  function Resync(items: seq<Item>, scenarios: seq<Scenario>, steps: seq<Step>): (r: seq<Item>)
    ensures |r| == |items|
    ensures forall i :: 0 <= i < |items| ==> r[i].ScenarioItem? == items[i].ScenarioItem? && r[i].StepItem? == items[i].StepItem?
    ensures forall i :: 0 <= i < |items| && !items[i].ScenarioItem? && !items[i].StepItem? ==> r[i] == items[i]
    decreases |items|
  {
    if |items| == 0 then []
    else if items[0].ScenarioItem? && |scenarios| > 0 then
      [ScenarioItem(scenarios[0])] + Resync(items[1..], scenarios[1..], steps)
    else if items[0].StepItem? && |steps| > 0 then
      [StepItem(steps[0])] + Resync(items[1..], scenarios, steps[1..])
    else [items[0]] + Resync(items[1..], scenarios, steps)
  }

  /** When there is one scenario per scenario item, the resynced items list exactly those scenarios. */
  lemma {:induction false} ResyncScenarios(items: seq<Item>, scenarios: seq<Scenario>, steps: seq<Step>)
    requires |ScenariosOf(items)| == |scenarios|
    ensures ScenariosOf(Resync(items, scenarios, steps)) == scenarios
    decreases |items|
  {
    if |items| > 0 {
      var r := Resync(items, scenarios, steps);
      if items[0].ScenarioItem? {
        ResyncScenarios(items[1..], scenarios[1..], steps);
        assert r[1..] == Resync(items[1..], scenarios[1..], steps);
        assert scenarios == [scenarios[0]] + scenarios[1..];
      } else if items[0].StepItem? && |steps| > 0 {
        ResyncScenarios(items[1..], scenarios, steps[1..]);
        assert r[1..] == Resync(items[1..], scenarios, steps[1..]);
      } else {
        ResyncScenarios(items[1..], scenarios, steps);
        assert r[1..] == Resync(items[1..], scenarios, steps);
      }
    }
  }

  /** When there is one step per step item, the resynced items list exactly those steps. */
  lemma {:induction false} ResyncSteps(items: seq<Item>, scenarios: seq<Scenario>, steps: seq<Step>)
    requires |StepsOf(items)| == |steps|
    ensures StepsOf(Resync(items, scenarios, steps)) == steps
    decreases |items|
  {
    if |items| > 0 {
      var r := Resync(items, scenarios, steps);
      if items[0].ScenarioItem? && |scenarios| > 0 {
        ResyncSteps(items[1..], scenarios[1..], steps);
        assert r[1..] == Resync(items[1..], scenarios[1..], steps);
      } else if items[0].StepItem? {
        ResyncSteps(items[1..], scenarios, steps[1..]);
        assert r[1..] == Resync(items[1..], scenarios, steps[1..]);
        assert steps == [steps[0]] + steps[1..];
      } else {
        ResyncSteps(items[1..], scenarios, steps);
        assert r[1..] == Resync(items[1..], scenarios, steps);
      }
    }
  }

  /** Writing back the values the items already hold changes nothing. */
  lemma {:induction false} ResyncUnchanged(items: seq<Item>)
    ensures Resync(items, ScenariosOf(items), StepsOf(items)) == items
    decreases |items|
  {
    if |items| > 0 {
      ResyncUnchanged(items[1..]);
      var scs, sts := ScenariosOf(items), StepsOf(items);
      var tail := Resync(items[1..], ScenariosOf(items[1..]), StepsOf(items[1..]));
      if items[0].ScenarioItem? {
        assert scs[0] == items[0].scenario && scs[1..] == ScenariosOf(items[1..]);
        assert sts == StepsOf(items[1..]);
        assert Resync(items, scs, sts) == [ScenarioItem(scs[0])] + tail;
      } else if items[0].StepItem? {
        assert sts[0] == items[0].step && sts[1..] == StepsOf(items[1..]);
        assert scs == ScenariosOf(items[1..]);
        assert Resync(items, scs, sts) == [StepItem(sts[0])] + tail;
      } else {
        assert scs == ScenariosOf(items[1..]) && sts == StepsOf(items[1..]);
        assert Resync(items, scs, sts) == [items[0]] + tail;
      }
      assert items == [items[0]] + items[1..];
    }
  }

  /** Writing back the steps a list of items already holds, and no scenarios, changes nothing. */
  lemma {:induction false} ResyncOwnSteps(items: seq<Item>)
    ensures Resync(items, [], StepsOf(items)) == items
    decreases |items|
  {
    if |items| > 0 {
      ResyncOwnSteps(items[1..]);
      var sts := StepsOf(items);
      var tail := Resync(items[1..], [], StepsOf(items[1..]));
      if items[0].StepItem? {
        assert sts[0] == items[0].step && sts[1..] == StepsOf(items[1..]);
        assert Resync(items, [], sts) == [StepItem(sts[0])] + tail;
      } else {
        assert sts == StepsOf(items[1..]);
        assert Resync(items, [], sts) == [items[0]] + tail;
      }
      assert items == [items[0]] + items[1..];
    }
  }

  /** A scenario whose step items are its steps is its own write-back. */
  lemma ResyncScenariosInOrder(scenarios: seq<Scenario>)
    ensures forall i :: 0 <= i < |scenarios| && ScenarioStepsInOrder(scenarios[i]) ==>
      Resync(scenarios[i].items, [], scenarios[i].steps) == scenarios[i].items
  {
    forall i | 0 <= i < |scenarios| && ScenarioStepsInOrder(scenarios[i])
      ensures Resync(scenarios[i].items, [], scenarios[i].steps) == scenarios[i].items
    {
      ResyncOwnSteps(scenarios[i].items);
    }
  }

  /** All scenario steps, scenario by scenario. */
  function ScenarioSteps(scenarios: seq<Scenario>): seq<Step>
  {
    if |scenarios| == 0 then [] else scenarios[0].steps + ScenarioSteps(scenarios[1..])
  }

  /** The order in which ProcessConceptStepsFrom visits steps: contexts, scenarios, teardown. */
  function VisitOrder(spec: Specification): seq<Step>
  {
    spec.contexts + ScenarioSteps(spec.scenarios) + spec.tearDownSteps
  }

  /**
    The scenario loop: processes each scenario's steps in place and stops at
    the first error. Every scenario keeps its heading and its number of steps,
    so no step moves to another scenario; a scenario whose step items were its
    steps still has them as its step items afterwards, since they share the
    step objects.
   */
  function ProcessScenarios(scenarios: seq<Scenario>, ex: Expander): (r: Effect<seq<Scenario>>)
    requires InRangeUntilError(ScenarioSteps(scenarios), ex)
    ensures |r.state| == |scenarios|
    ensures forall i :: 0 <= i < |scenarios| ==>
      && r.state[i].heading == scenarios[i].heading
      && |r.state[i].steps| == |scenarios[i].steps|
      && (ScenarioStepsInOrder(scenarios[i]) ==>
            && r.state[i].items == Resync(scenarios[i].items, [], r.state[i].steps)
            && ScenarioStepsInOrder(r.state[i]))
    ensures ScenarioSteps(r.state) == ProcessAll(ScenarioSteps(scenarios), ex).state
    ensures r.err == ProcessAll(ScenarioSteps(scenarios), ex).err
    decreases |scenarios|
  {
    if |scenarios| == 0 then Effect([], None)
    else
      var sc := scenarios[0];
      assert ScenarioSteps(scenarios) == sc.steps + ScenarioSteps(scenarios[1..]);
      ProcessAllAppend(sc.steps, ScenarioSteps(scenarios[1..]), ex);
      var first := ProcessAll(sc.steps, ex);
      var done := sc.(steps := first.state, items := Resync(sc.items, [], first.state));
      assert ScenarioStepsInOrder(sc) ==> ScenarioStepsInOrder(done) by {
        if ScenarioStepsInOrder(sc) {
          ResyncSteps(sc.items, [], first.state);
        }
      }
      if first.err.Some? then
        ScenarioStepsCons(done, scenarios[1..]);
        ResyncScenariosInOrder(scenarios[1..]);
        Effect([done] + scenarios[1..], first.err)
      else
        var rest := ProcessScenarios(scenarios[1..], ex);
        ScenarioStepsCons(done, rest.state);
        Effect([done] + rest.state, rest.err)
  }

  lemma ScenarioStepsCons(sc: Scenario, rest: seq<Scenario>)
    ensures ScenarioSteps([sc] + rest) == sc.steps + ScenarioSteps(rest)
  {
    assert ([sc] + rest)[1..] == rest;
  }

  /** The specification with new step and scenario lists, written back into `Items` as the shared pointers would. */
  function WriteBack(spec: Specification, contexts: seq<Step>, scenarios: seq<Scenario>, tearDown: seq<Step>): (r: Specification)
    requires |contexts| == |spec.contexts| && |scenarios| == |spec.scenarios| && |tearDown| == |spec.tearDownSteps|
    ensures r.(contexts := spec.contexts, scenarios := spec.scenarios,
               tearDownSteps := spec.tearDownSteps, items := spec.items) == spec
    ensures r.contexts == contexts && r.scenarios == scenarios && r.tearDownSteps == tearDown
    ensures ScenariosInOrder(spec) ==> ScenariosInOrder(r)
    ensures StepsInOrder(spec) ==> StepsInOrder(r)
    ensures |r.items| == |spec.items|
    ensures forall i :: 0 <= i < |spec.items| ==>
      r.items[i].ScenarioItem? == spec.items[i].ScenarioItem? && r.items[i].StepItem? == spec.items[i].StepItem?
    ensures forall i :: 0 <= i < |spec.items| && !spec.items[i].ScenarioItem? && !spec.items[i].StepItem? ==>
      r.items[i] == spec.items[i]
  {
    var items := Resync(spec.items, scenarios, contexts + tearDown);
    assert ScenariosInOrder(spec) ==> ScenariosOf(items) == scenarios by {
      if ScenariosInOrder(spec) {
        ResyncScenarios(spec.items, scenarios, contexts + tearDown);
      }
    }
    assert StepsInOrder(spec) ==> StepsOf(items) == contexts + tearDown by {
      if StepsInOrder(spec) {
        ResyncSteps(spec.items, scenarios, contexts + tearDown);
      }
    }
    spec.(contexts := contexts, scenarios := scenarios, tearDownSteps := tearDown, items := items)
  }

  /**
    ProcessConceptStepsFrom: expands concept steps in the contexts, then in each
    scenario's steps, then in the teardown steps, and returns the first error.
    It is one pass over the visit order that stops at the first error; every
    step stays in its own list and scenario, the expanded steps and scenarios
    show through `Items` as they do through the typed lists, and nothing else
    changes.
   */
  function ProcessConceptStepsFrom(spec: Specification, ex: Expander): (r: Effect<Specification>)
    requires InRangeUntilError(VisitOrder(spec), ex)
    ensures VisitOrder(r.state) == ProcessAll(VisitOrder(spec), ex).state
    ensures r.err == ProcessAll(VisitOrder(spec), ex).err
    ensures |r.state.contexts| == |spec.contexts| && |r.state.tearDownSteps| == |spec.tearDownSteps|
    ensures r.state.(contexts := spec.contexts, scenarios := spec.scenarios,
                     tearDownSteps := spec.tearDownSteps, items := spec.items) == spec
    ensures ScenariosInOrder(spec) ==> ScenariosInOrder(r.state)
    ensures StepsInOrder(spec) ==> StepsInOrder(r.state)
    ensures |r.state.items| == |spec.items|
    ensures forall i :: 0 <= i < |spec.items| ==>
      r.state.items[i].ScenarioItem? == spec.items[i].ScenarioItem? && r.state.items[i].StepItem? == spec.items[i].StepItem?
    ensures forall i :: 0 <= i < |spec.items| && !spec.items[i].ScenarioItem? && !spec.items[i].StepItem? ==>
      r.state.items[i] == spec.items[i]
    ensures |r.state.scenarios| == |spec.scenarios|
    ensures forall i :: 0 <= i < |spec.scenarios| ==>
      && r.state.scenarios[i].heading == spec.scenarios[i].heading
      && |r.state.scenarios[i].steps| == |spec.scenarios[i].steps|
      && (ScenarioStepsInOrder(spec.scenarios[i]) ==>
            && r.state.scenarios[i].items == Resync(spec.scenarios[i].items, [], r.state.scenarios[i].steps)
            && ScenarioStepsInOrder(r.state.scenarios[i]))
  {
    var middle := ScenarioSteps(spec.scenarios);
    ProcessAllAppend(spec.contexts + middle, spec.tearDownSteps, ex);
    ProcessAllAppend(spec.contexts, middle, ex);
    var c := ProcessAll(spec.contexts, ex);
    if c.err.Some? then
      ResyncScenariosInOrder(spec.scenarios);
      Effect(WriteBack(spec, c.state, spec.scenarios, spec.tearDownSteps), c.err)
    else
      var s := ProcessScenarios(spec.scenarios, ex);
      if s.err.Some? then
        Effect(WriteBack(spec, c.state, s.state, spec.tearDownSteps), s.err)
      else
        var t := ProcessAll(spec.tearDownSteps, ex);
        Effect(WriteBack(spec, c.state, s.state, t.state), t.err)
  }
}
