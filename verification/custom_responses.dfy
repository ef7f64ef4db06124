/**
  The language server's scenario lookup: given the scenarios of a
  specification file and a cursor line, answer with the scenario under the
  cursor, or with every scenario of the file when the cursor is in none of
  them. Each answer names its scenario by an execution identifier of the
  form `<file>:<line of the heading>`. Whether a scenario spans a line is
  decided by the scenario's own span, which is a parameter here.
 */
module CustomResponses {
  import opened Collections
  import opened Text
  import opened GaugeSpec

  datatype ScenarioInfo = ScenarioInfo(heading: string, lineNo: int, executionIdentifier: string)

  /** getScenarioAt's two kinds of answer: the one scenario under the cursor, or all of them. */
  datatype ScenarioAt = Found(info: ScenarioInfo) | All(infos: seq<ScenarioInfo>)

  /** Scenario.InSpan: whether a scenario covers a one-based line number. */
  type InSpan = (Scenario, int) -> bool

  /** The `%s:%d` identifier that runs one scenario of a file. */
  function ExecutionIdentifier(file: string, lineNo: int): string
  {
    file + ":" + Decimal(lineNo)
  }

  /** Splits an identifier at its last colon into the file and the line number. */
  function ParseExecutionIdentifier(id: string): Option<(string, int)>
  {
    var k := LastIndexOf(id, ':');
    if k < 0 then None
    else match ParseDecimal(id[k + 1..])
      case None => None
      case Some(n) => Some((id[..k], n))
  }

  lemma DecimalHasNoColon(n: int)
    ensures ':' !in Decimal(n)
  {
    var d := Decimal(n);
    forall i | 0 <= i < |d| ensures d[i] != ':' {
      if n < 0 {
        assert d == "-" + Digits(-n);
        if i > 0 {
          assert d[i] == Digits(-n)[i - 1];
        }
      }
    }
  }

  /** An execution identifier names its file and its line unambiguously, even when the file itself holds colons. */
  lemma ExecutionIdentifierRoundTrip(file: string, lineNo: int)
    ensures ParseExecutionIdentifier(ExecutionIdentifier(file, lineNo)) == Some((file, lineNo))
  {
    var id := ExecutionIdentifier(file, lineNo);
    var d := Decimal(lineNo);
    DecimalHasNoColon(lineNo);
    assert id[|file|] == ':';
    assert id[|file| + 1..] == d;
    assert forall j :: |file| < j < |id| ==> id[j] == d[j - |file| - 1];
    var k := LastIndexOf(id, ':');
    assert k == |file|;
    assert id[..k] == file;
    DecimalRoundTrip(lineNo);
  }

  /** getScenarioInfo: the heading's text and line, and the identifier that runs the scenario in `file`. */
  function GetScenarioInfo(scenario: Scenario, file: string): (r: ScenarioInfo)
    ensures r.heading == scenario.heading.value
    ensures r.lineNo == scenario.heading.lineNo
  {
    ScenarioInfo(scenario.heading.value, scenario.heading.lineNo, ExecutionIdentifier(file, scenario.heading.lineNo))
  }

  /** The identifier in a scenario's info names the file it was asked for and the scenario's heading line. */
  lemma ScenarioInfoIdentifies(scenario: Scenario, file: string)
    ensures ParseExecutionIdentifier(GetScenarioInfo(scenario, file).executionIdentifier) == Some((file, scenario.heading.lineNo))
  {
    ExecutionIdentifierRoundTrip(file, scenario.heading.lineNo);
  }

  /** Some scenario covers the one-based line. */
  predicate AnyInSpan(scenarios: seq<Scenario>, lineNo: int, inSpan: InSpan)
  {
    exists i :: 0 <= i < |scenarios| && inSpan(scenarios[i], lineNo)
  }

  /** Scenario `k` is the first one covering the one-based line. */
  predicate FirstInSpan(scenarios: seq<Scenario>, lineNo: int, inSpan: InSpan, k: int)
  {
    && 0 <= k < |scenarios|
    && inSpan(scenarios[k], lineNo)
    && forall j :: 0 <= j < k ==> !inSpan(scenarios[j], lineNo)
  }

  /**
    getScenarioAt: the zero-based cursor line is made one-based; the first
    scenario covering it answers, and the ones after it are not looked at.
    When none covers it, the answer lists every scenario in order.
   */
  method GetScenarioAt(scenarios: seq<Scenario>, file: string, line: int, inSpan: InSpan) returns (r: ScenarioAt)
    ensures r.Found? <==> AnyInSpan(scenarios, line + 1, inSpan)
    ensures r.Found? ==>
      exists k :: FirstInSpan(scenarios, line + 1, inSpan, k) && r.info == GetScenarioInfo(scenarios[k], file)
    ensures r.All? ==>
      && |r.infos| == |scenarios|
      && forall i :: 0 <= i < |scenarios| ==> r.infos[i] == GetScenarioInfo(scenarios[i], file)
  {
    var infos: seq<ScenarioInfo> := [];
    var i := 0;
    while i < |scenarios|
      invariant 0 <= i <= |scenarios|
      invariant |infos| == i
      invariant forall j :: 0 <= j < i ==> !inSpan(scenarios[j], line + 1)
      invariant forall j :: 0 <= j < i ==> infos[j] == GetScenarioInfo(scenarios[j], file)
    {
      var info := GetScenarioInfo(scenarios[i], file);
      if inSpan(scenarios[i], line + 1) {
        assert FirstInSpan(scenarios, line + 1, inSpan, i);
        return Found(info);
      }
      infos := infos + [info];
      i := i + 1;
    }
    return All(infos);
  }
}
