/**
 `evaluateBenchmark`: matching findings to ground-truth cases, classifying every case in every run,
 the confusion counts, recall, the category breakdown and the required-case gates.

 Names are numbers. The cases that a report's assisted review observed are an arbitrary list.
 Ratios are exact reals.
 */
module Evaluator {

  import opened Common

  type Name = nat

  datatype Expectation = ExpectFinding | ExpectNoFinding

  datatype Observation = SawFinding | SawNoFinding | SawInconclusive | SawNothing

  datatype Class = TruePositive | FalseNegative | FalsePositive | TrueNegative | Inconclusive | Uncovered

  datatype Workflow = Workflow(workflowId: Name, caseId: Option<Name>)

  datatype Finding = Finding(id: Name, sourceModule: Name, kind: Name, workflow: Option<Workflow>, workflowCase: Option<Name>)

  datatype Conclusion = ConcludedFinding | ConcludedNoFinding | Unresolved

  datatype ObservedCase = ObservedCase(workflowId: Name, caseId: Name, proven: bool, conclusion: Conclusion)

  datatype Report = Report(findings: seq<Finding>, observed: seq<ObservedCase>)

  datatype Selector = Selector(workflowId: Option<Name>, caseId: Option<Name>, sourceModule: Option<Name>, findingType: Option<Name>)

  datatype Truth = Truth(id: Name, expected: Expectation, selectors: seq<Selector>, category: Option<Name>, required: bool)

  // ---------------------------------------------------------------- selectors

  predicate FindingMatches(f: Finding, s: Selector) {
    && (s.workflowId.Some? ==> f.workflow.Some? && f.workflow.value.workflowId == s.workflowId.value)
    && (s.caseId.Some? ==> (f.workflow.Some? && f.workflow.value.caseId == s.caseId) || f.workflowCase == s.caseId)
    && (s.sourceModule.Some? ==> f.sourceModule == s.sourceModule.value)
    && (s.findingType.Some? ==> f.kind == s.findingType.value)
  }

  predicate InDomain(f: Finding, s: Selector) {
    if s.workflowId.Some? then f.workflow.Some? && f.workflow.value.workflowId == s.workflowId.value
    else if s.sourceModule.Some? then f.sourceModule == s.sourceModule.value
    else s.findingType.Some? && f.kind == s.findingType.value
  }

  predicate CaseMatches(o: ObservedCase, s: Selector) {
    && (s.workflowId.Some? ==> s.workflowId.value == o.workflowId)
    && (s.caseId.Some? ==> s.caseId.value == o.caseId)
    && (s.sourceModule.Some? ==> s.sourceModule.value == o.workflowId)
    && s.findingType.None?
  }

  predicate Selected(f: Finding, ss: seq<Selector>) { exists k | 0 <= k < |ss| :: FindingMatches(f, ss[k]) }

  predicate SelectedCase(o: ObservedCase, ss: seq<Selector>) { exists k | 0 <= k < |ss| :: CaseMatches(o, ss[k]) }

  predicate NearSelectors(f: Finding, ss: seq<Selector>) { exists k | 0 <= k < |ss| :: InDomain(f, ss[k]) }

  const ANY: Selector := Selector(None, None, None, None)

  /** A selector asks for each of its fields; a case id may stand on either side of the finding. */
  lemma SelectorAsksForEachField(f: Finding, s: Selector, n: Name)
    ensures FindingMatches(f, s) <==>
            && FindingMatches(f, ANY.(workflowId := s.workflowId)) && FindingMatches(f, ANY.(caseId := s.caseId))
            && FindingMatches(f, ANY.(sourceModule := s.sourceModule)) && FindingMatches(f, ANY.(findingType := s.findingType))
    ensures FindingMatches(f, ANY)
    ensures FindingMatches(f, ANY.(workflowId := Some(n))) <==> exists c :: f.workflow == Some(Workflow(n, c))
    ensures FindingMatches(f, ANY.(caseId := Some(n))) <==> (exists w :: f.workflow == Some(Workflow(w, Some(n)))) || f.workflowCase == Some(n)
    ensures FindingMatches(f, ANY.(sourceModule := Some(n))) <==> f.sourceModule == n
    ensures FindingMatches(f, ANY.(findingType := Some(n))) <==> f.kind == n
  {
    if f.workflow.Some? {
      assert f.workflow == Some(Workflow(f.workflow.value.workflowId, f.workflow.value.caseId));
    }
  }

  /** Observed cases are selected by workflow, case and module, the module being the workflow, and never by finding type. */
  lemma SelectorOfObserved(o: ObservedCase, s: Selector, n: Name)
    ensures CaseMatches(o, s) <==>
            && s.findingType == None && CaseMatches(o, ANY.(workflowId := s.workflowId)) && CaseMatches(o, ANY.(caseId := s.caseId))
            && CaseMatches(o, ANY.(sourceModule := s.sourceModule))
    ensures CaseMatches(o, ANY) && !CaseMatches(o, ANY.(findingType := Some(n)))
    ensures CaseMatches(o, ANY.(workflowId := Some(n))) <==> o.workflowId == n
    ensures CaseMatches(o, ANY.(caseId := Some(n))) <==> o.caseId == n
    ensures CaseMatches(o, ANY.(sourceModule := Some(n))) <==> o.workflowId == n
  {
  }

  /** A finding is near a selector when it agrees with the first of workflow, module and type that the selector names. */
  lemma DomainIsFirstField(f: Finding, s: Selector)
    ensures s.workflowId.Some? ==> (InDomain(f, s) <==> FindingMatches(f, ANY.(workflowId := s.workflowId)))
    ensures s.workflowId == None && s.sourceModule.Some? ==> (InDomain(f, s) <==> FindingMatches(f, ANY.(sourceModule := s.sourceModule)))
    ensures s.workflowId == None && s.sourceModule == None && s.findingType.Some? ==> (InDomain(f, s) <==> FindingMatches(f, ANY.(findingType := s.findingType)))
    ensures s.workflowId == None && s.sourceModule == None && s.findingType == None ==> !InDomain(f, s)
  {
  }

  // ---------------------------------------------------------------- one case in one run

  function Matched(ss: seq<Selector>, fs: seq<Finding>): seq<Finding>
    decreases |fs|
  {
    if fs == [] then [] else (if Selected(fs[0], ss) then [fs[0]] else []) + Matched(ss, fs[1..])
  }

  function MatchedCases(ss: seq<Selector>, os: seq<ObservedCase>): seq<ObservedCase>
    decreases |os|
  {
    if os == [] then [] else (if SelectedCase(os[0], ss) then [os[0]] else []) + MatchedCases(ss, os[1..])
  }

  predicate SomeProven(os: seq<ObservedCase>, c: Conclusion) {
    exists k | 0 <= k < |os| :: os[k].proven && os[k].conclusion == c
  }

  function Observe(fs: seq<Finding>, os: seq<ObservedCase>): Observation {
    if |fs| > 0 || SomeProven(os, ConcludedFinding) then SawFinding
    else if SomeProven(os, ConcludedNoFinding) then SawNoFinding
    else if |os| > 0 then SawInconclusive
    else SawNothing
  }

  function Classify(e: Expectation, o: Observation): Class {
    match o
    case SawNothing => Uncovered
    case SawInconclusive => Inconclusive
    case SawFinding => if e == ExpectFinding then TruePositive else FalsePositive
    case SawNoFinding => if e == ExpectFinding then FalseNegative else TrueNegative
  }

  datatype CaseRun = CaseRun(run: nat, classification: Class, observed: Observation, matched: seq<Finding>)

  function ClassifyRun(e: Expectation, ss: seq<Selector>, r: Report, run: nat): CaseRun {
    var fs := Matched(ss, r.findings);
    var observed := Observe(fs, MatchedCases(ss, r.observed));
    CaseRun(run, Classify(e, observed), observed, fs)
  }

  lemma {:induction false} MatchedExactly(ss: seq<Selector>, fs: seq<Finding>)
    ensures forall f :: f in Matched(ss, fs) <==> f in fs && Selected(f, ss)
    decreases |fs|
  {
    hide Selected;
    if fs != [] {
      MatchedExactly(ss, fs[1..]);
      assert fs == [fs[0]] + fs[1..];
    }
  }

  lemma {:induction false} MatchedCasesExactly(ss: seq<Selector>, os: seq<ObservedCase>)
    ensures forall o :: o in MatchedCases(ss, os) <==> o in os && SelectedCase(o, ss)
    decreases |os|
  {
    hide SelectedCase;
    if os != [] {
      MatchedCasesExactly(ss, os[1..]);
      assert os == [os[0]] + os[1..];
    }
  }

  predicate ProvenFor(os: seq<ObservedCase>, ss: seq<Selector>, c: Conclusion) {
    exists o :: o in os && SelectedCase(o, ss) && o.proven && o.conclusion == c
  }

  predicate FoundFor(fs: seq<Finding>, ss: seq<Selector>) {
    exists f :: f in fs && Selected(f, ss)
  }

  predicate ObservedFor(os: seq<ObservedCase>, ss: seq<Selector>) {
    exists o :: o in os && SelectedCase(o, ss)
  }

  /**
   A finding outweighs a proven absence, a proven absence outweighs an open observation, and a
   case nobody looked at is uncovered.
   */
  lemma ObservationMeans(e: Expectation, ss: seq<Selector>, r: Report, run: nat)
    ensures var found := FoundFor(r.findings, ss) || ProvenFor(r.observed, ss, ConcludedFinding);
            var absent := ProvenFor(r.observed, ss, ConcludedNoFinding);
            var observed := ClassifyRun(e, ss, r, run).observed;
            && (observed == SawFinding <==> found)
            && (observed == SawNoFinding <==> !found && absent)
            && (observed == SawNothing <==> !found && !ObservedFor(r.observed, ss))
  {
    hide Selected, SelectedCase, Matched, MatchedCases;
    MatchedExactly(ss, r.findings);
    MatchedCasesExactly(ss, r.observed);
    var fs, os := Matched(ss, r.findings), MatchedCases(ss, r.observed);
    assert fs != [] ==> fs[0] in fs;
    assert os != [] ==> os[0] in os;
    ProvenAgrees(ss, r.observed, ConcludedFinding);
    ProvenAgrees(ss, r.observed, ConcludedNoFinding);
  }

  lemma ProvenAgrees(ss: seq<Selector>, all: seq<ObservedCase>, c: Conclusion)
    ensures SomeProven(MatchedCases(ss, all), c) <==> ProvenFor(all, ss, c)
  {
    hide SelectedCase, MatchedCases;
    MatchedCasesExactly(ss, all);
    var os := MatchedCases(ss, all);
    if SomeProven(os, c) {
      var k :| 0 <= k < |os| && os[k].proven && os[k].conclusion == c;
      assert os[k] in os;
    }
    if ProvenFor(all, ss, c) {
      var o :| o in all && SelectedCase(o, ss) && o.proven && o.conclusion == c;
      assert o in os;
    }
  }

  // ---------------------------------------------------------------- one case over all runs

  datatype CaseResult = CaseResult(id: Name, expected: Expectation, category: Option<Name>, required: bool,
                                   runs: seq<CaseRun>, aggregate: Option<Class>, stable: bool)

  const ORDER: seq<Class> := [FalsePositive, FalseNegative, Inconclusive, Uncovered, TruePositive, TrueNegative]

  predicate Includes(runs: seq<CaseRun>, c: Class) { exists k | 0 <= k < |runs| :: runs[k].classification == c }

  /** `order.find((item) => values.includes(item))` */
  function FirstIncluded(order: seq<Class>, runs: seq<CaseRun>): Option<Class>
    decreases |order|
  {
    if order == [] then None else if Includes(runs, order[0]) then Some(order[0]) else FirstIncluded(order[1..], runs)
  }

  predicate Stable(runs: seq<CaseRun>) { |runs| > 0 && forall k | 0 <= k < |runs| :: runs[k].classification == runs[0].classification }

  function CaseRuns(t: Truth, reports: seq<Report>): seq<CaseRun> {
    seq(|reports|, i requires 0 <= i < |reports| => ClassifyRun(t.expected, t.selectors, reports[i], i + 1))
  }

  function ResultOf(t: Truth, reports: seq<Report>): CaseResult {
    var runs := CaseRuns(t, reports);
    CaseResult(t.id, t.expected, t.category, t.required, runs, FirstIncluded(ORDER, runs), Stable(runs))
  }

  function ResultsOf(ts: seq<Truth>, reports: seq<Report>): seq<CaseResult> {
    seq(|ts|, k requires 0 <= k < |ts| => ResultOf(ts[k], reports))
  }

  // ---------------------------------------------------------------- counting

  datatype Confusion = Confusion(truePositive: nat, falseNegative: nat, falsePositive: nat, trueNegative: nat, inconclusive: nat, uncovered: nat)
  {
    function Total(): nat { truePositive + falseNegative + falsePositive + trueNegative + inconclusive + uncovered }

    function Plus(o: Confusion): Confusion {
      Confusion(truePositive + o.truePositive, falseNegative + o.falseNegative, falsePositive + o.falsePositive,
                trueNegative + o.trueNegative, inconclusive + o.inconclusive, uncovered + o.uncovered)
    }
  }

  const ZERO: Confusion := Confusion(0, 0, 0, 0, 0, 0)

  /** `cases.flatMap((item) => item.runs)` */
  function AllRuns(cases: seq<CaseResult>): seq<CaseRun>
    decreases |cases|
  {
    if cases == [] then [] else cases[0].runs + AllRuns(cases[1..])
  }

  function Count(runs: seq<CaseRun>, c: Class): nat
    decreases |runs|
  {
    if runs == [] then 0 else (if runs[0].classification == c then 1 else 0) + Count(runs[1..], c)
  }

  function ConfusionOf(runs: seq<CaseRun>): Confusion {
    Confusion(Count(runs, TruePositive), Count(runs, FalseNegative), Count(runs, FalsePositive),
              Count(runs, TrueNegative), Count(runs, Inconclusive), Count(runs, Uncovered))
  }

  function Expecting(cases: seq<CaseResult>, e: Expectation): seq<CaseResult>
    decreases |cases|
  {
    if cases == [] then [] else (if cases[0].expected == e then [cases[0]] else []) + Expecting(cases[1..], e)
  }

  function UnresolvedRuns(runs: seq<CaseRun>): nat
    decreases |runs|
  {
    if runs == [] then 0 else (if runs[0].classification == Inconclusive || runs[0].classification == Uncovered then 1 else 0) + UnresolvedRuns(runs[1..])
  }

  function PositiveUnresolved(cases: seq<CaseResult>): nat {
    UnresolvedRuns(AllRuns(Expecting(cases, ExpectFinding)))
  }

  function Ratio(n: nat, d: nat): real { if d == 0 then 0.0 else n as real / d as real }

  function RecallDenominator(cases: seq<CaseResult>): nat {
    var c := ConfusionOf(AllRuns(cases));
    c.truePositive + c.falseNegative + PositiveUnresolved(cases)
  }

  function Recall(cases: seq<CaseResult>): real {
    Ratio(ConfusionOf(AllRuns(cases)).truePositive, RecallDenominator(cases))
  }

  const UNCATEGORIZED: Name := 0

  function CategoryOf(c: CaseResult): Name { if c.category.Some? then c.category.value else UNCATEGORIZED }

  /** `cases.filter(...)` for the categories in `names`. */
  function InCategories(cases: seq<CaseResult>, names: set<Name>): seq<CaseResult>
    decreases |cases|
  {
    if cases == [] then [] else (if CategoryOf(cases[0]) in names then [cases[0]] else []) + InCategories(cases[1..], names)
  }

  datatype CategoryResult = CategoryResult(category: Name, caseCount: nat, positiveCases: nat, negativeCases: nat, confusion: Confusion, recall: real)

  /** `summarizeCases` */
  function SummarizeCases(category: Name, selected: seq<CaseResult>): CategoryResult {
    CategoryResult(category, |selected|, |Expecting(selected, ExpectFinding)|, |Expecting(selected, ExpectNoFinding)|,
                   ConfusionOf(AllRuns(selected)), Recall(selected))
  }

  /** `categoryResults`, for the categories in the given order. */
  function CategoryResults(cases: seq<CaseResult>, order: seq<Name>): seq<CategoryResult> {
    seq(|order|, k requires 0 <= k < |order| => SummarizeCases(order[k], InCategories(cases, {order[k]})))
  }

  function NamesOf(s: seq<Name>): set<Name> { set x | x in s }

  /** The categories of the cases, each once; the code sorts them, and no statement here depends on the order. */
  predicate ListsCategories(cases: seq<CaseResult>, order: seq<Name>) {
    Distinct(order) && NamesOf(order) == set c | c in cases :: CategoryOf(c)
  }

  // ---------------------------------------------------------------- unexpected findings

  predicate MatchedByAny(ts: seq<Truth>, f: Finding) { exists k | 0 <= k < |ts| :: Selected(f, ts[k].selectors) }

  predicate NearAny(ts: seq<Truth>, f: Finding) { exists k | 0 <= k < |ts| :: NearSelectors(f, ts[k].selectors) }

  predicate IsUnexpected(ts: seq<Truth>, f: Finding) { NearAny(ts, f) && !MatchedByAny(ts, f) }

  predicate IsIgnored(ts: seq<Truth>, f: Finding) { !NearAny(ts, f) && !MatchedByAny(ts, f) }

  datatype Unexpected = Unexpected(run: nat, finding: Finding)

  function UnexpectedIn(ts: seq<Truth>, fs: seq<Finding>, run: nat): seq<Unexpected>
    decreases |fs|
  {
    if fs == [] then [] else (if IsUnexpected(ts, fs[0]) then [Unexpected(run, fs[0])] else []) + UnexpectedIn(ts, fs[1..], run)
  }

  /** Unexpected findings of the first `n` reports, numbered from 1. */
  function UnexpectedUpTo(ts: seq<Truth>, reports: seq<Report>, n: nat): seq<Unexpected>
    requires n <= |reports|
  {
    if n == 0 then [] else UnexpectedUpTo(ts, reports, n - 1) + UnexpectedIn(ts, reports[n - 1].findings, n)
  }

  function IgnoredIn(ts: seq<Truth>, fs: seq<Finding>): nat
    decreases |fs|
  {
    if fs == [] then 0 else (if IsIgnored(ts, fs[0]) then 1 else 0) + IgnoredIn(ts, fs[1..])
  }

  method CollectUnexpected(ts: seq<Truth>, reports: seq<Report>) returns (found: seq<Unexpected>)
    ensures found == UnexpectedUpTo(ts, reports, |reports|)
  {
    hide IsUnexpected;
    found := [];
    for i := 0 to |reports|
      invariant found == UnexpectedUpTo(ts, reports, i)
    {
      var fs := reports[i].findings;
      var before := found;
      for j := 0 to |fs|
        invariant found + UnexpectedIn(ts, fs[j..], i + 1) == before + UnexpectedIn(ts, fs, i + 1)
      {
        assert fs[j..][1..] == fs[j + 1..];
        if IsUnexpected(ts, fs[j]) {
          found := found + [Unexpected(i + 1, fs[j])];
        }
      }
      assert fs[|fs|..] == [];
    }
  }

  // ---------------------------------------------------------------- overlapping selectors

  function CasesFor(ts: seq<Truth>, f: Finding): nat
    decreases |ts|
  {
    if ts == [] then 0 else (if Selected(f, ts[0].selectors) then 1 else 0) + CasesFor(ts[1..], f)
  }

  function CasesForObserved(ts: seq<Truth>, o: ObservedCase): nat
    decreases |ts|
  {
    if ts == [] then 0 else (if SelectedCase(o, ts[0].selectors) then 1 else 0) + CasesForObserved(ts[1..], o)
  }

  predicate AtMostOneCase(ts: seq<Truth>, f: Finding) {
    forall j, k | 0 <= j < k < |ts| :: !(Selected(f, ts[j].selectors) && Selected(f, ts[k].selectors))
  }

  predicate AtMostOneForObserved(ts: seq<Truth>, o: ObservedCase) {
    forall j, k | 0 <= j < k < |ts| :: !(SelectedCase(o, ts[j].selectors) && SelectedCase(o, ts[k].selectors))
  }

  predicate NoOverlap(ts: seq<Truth>, r: Report) {
    && (forall k | 0 <= k < |r.findings| :: AtMostOneCase(ts, r.findings[k]))
    && (forall k | 0 <= k < |r.observed| :: AtMostOneForObserved(ts, r.observed[k]))
  }

  /** `assertUnambiguousSelectors`: false is `BENCHMARK_SELECTOR_OVERLAP`. */
  method CheckSelectors(ts: seq<Truth>, reports: seq<Report>) returns (ok: bool)
    ensures ok <==> forall i | 0 <= i < |reports| :: NoOverlap(ts, reports[i])
  {
    hide AtMostOneCase, AtMostOneForObserved, CasesFor, CasesForObserved;
    for i := 0 to |reports|
      invariant forall k | 0 <= k < i :: NoOverlap(ts, reports[k])
    {
      var r := reports[i];
      for j := 0 to |r.findings|
        invariant forall k | 0 <= k < j :: AtMostOneCase(ts, r.findings[k])
      {
        CasesForAtMostOne(ts, r.findings[j]);
        if CasesFor(ts, r.findings[j]) > 1 { return false; }
      }
      for j := 0 to |r.observed|
        invariant forall k | 0 <= k < j :: AtMostOneForObserved(ts, r.observed[k])
      {
        CasesForObservedAtMostOne(ts, r.observed[j]);
        if CasesForObserved(ts, r.observed[j]) > 1 { return false; }
      }
    }
    return true;
  }

  lemma {:induction false} CasesForPositive(ts: seq<Truth>, f: Finding)
    ensures CasesFor(ts, f) > 0 <==> MatchedByAny(ts, f)
    decreases |ts|
  {
    hide Selected;
    if ts != [] {
      CasesForPositive(ts[1..], f);
      if MatchedByAny(ts, f) && !Selected(f, ts[0].selectors) {
        var k :| 0 <= k < |ts| && Selected(f, ts[k].selectors);
        assert ts[k] == ts[1..][k - 1];
      }
    }
  }

  lemma {:induction false} CasesForAtMostOne(ts: seq<Truth>, f: Finding)
    ensures CasesFor(ts, f) <= 1 <==> AtMostOneCase(ts, f)
    decreases |ts|
  {
    hide Selected;
    if ts != [] {
      var rest := ts[1..];
      CasesForAtMostOne(rest, f);
      CasesForPositive(rest, f);
      assert forall k | 0 < k < |ts| :: ts[k] == rest[k - 1];
      assert forall k | 0 <= k < |rest| :: rest[k] == ts[k + 1];
    }
  }

  lemma {:induction false} CasesForObservedPositive(ts: seq<Truth>, o: ObservedCase)
    ensures CasesForObserved(ts, o) > 0 <==> exists k | 0 <= k < |ts| :: SelectedCase(o, ts[k].selectors)
    decreases |ts|
  {
    hide SelectedCase;
    if ts != [] {
      CasesForObservedPositive(ts[1..], o);
      assert forall k | 0 < k < |ts| :: ts[k] == ts[1..][k - 1];
    }
  }

  lemma {:induction false} CasesForObservedAtMostOne(ts: seq<Truth>, o: ObservedCase)
    ensures CasesForObserved(ts, o) <= 1 <==> AtMostOneForObserved(ts, o)
    decreases |ts|
  {
    hide SelectedCase;
    if ts != [] {
      var rest := ts[1..];
      CasesForObservedAtMostOne(rest, o);
      CasesForObservedPositive(rest, o);
      assert forall k | 0 < k < |ts| :: ts[k] == rest[k - 1];
      assert forall k | 0 <= k < |rest| :: rest[k] == ts[k + 1];
    }
  }

  // ---------------------------------------------------------------- the evaluation

  datatype Evaluation = Evaluation(cases: seq<CaseResult>, unexpected: seq<Unexpected>, confusion: Confusion, recall: real)

  /** The scored part of `evaluateBenchmark`; `None` is one of its errors. */
  function Evaluate(ts: seq<Truth>, reports: seq<Report>): Option<Evaluation> {
    if reports == [] || exists i | 0 <= i < |reports| :: !NoOverlap(ts, reports[i]) then None
    else
      var cases := ResultsOf(ts, reports);
      var unexpected := UnexpectedUpTo(ts, reports, |reports|);
      var counted := ConfusionOf(AllRuns(cases));
      Some(Evaluation(cases, unexpected, counted.(falsePositive := counted.falsePositive + |unexpected|), Recall(cases)))
  }

  // ---------------------------------------------------------------- the classes partition the cells

  /** Every case has one cell per run, and the classes of a cell are those of its case's expectation. */
  predicate Rectangular(cases: seq<CaseResult>, runs: nat) {
    forall k | 0 <= k < |cases| ::
      |cases[k].runs| == runs && forall i | 0 <= i < runs :: FitsExpectation(cases[k].expected, cases[k].runs[i].classification)
  }

  predicate FitsExpectation(e: Expectation, c: Class) {
    match c
    case TruePositive | FalseNegative => e == ExpectFinding
    case FalsePositive | TrueNegative => e == ExpectNoFinding
    case _ => true
  }

  lemma ResultsAreRectangular(ts: seq<Truth>, reports: seq<Report>)
    ensures Rectangular(ResultsOf(ts, reports), |reports|) && |ResultsOf(ts, reports)| == |ts|
  {
    hide Observe, Matched, MatchedCases, FirstIncluded, Stable;
  }

  lemma {:induction false} CountOfConcat(a: seq<CaseRun>, b: seq<CaseRun>, c: Class)
    ensures Count(a + b, c) == Count(a, c) + Count(b, c)
    decreases |a|
  {
    if a == [] {
      assert a + b == b;
    } else {
      assert (a + b)[1..] == a[1..] + b;
      CountOfConcat(a[1..], b, c);
    }
  }

  lemma {:induction false} UnresolvedIsTwoClasses(runs: seq<CaseRun>)
    ensures UnresolvedRuns(runs) == Count(runs, Inconclusive) + Count(runs, Uncovered)
    decreases |runs|
  {
    if runs != [] { UnresolvedIsTwoClasses(runs[1..]); }
  }

  lemma ConfusionOfConcat(a: seq<CaseRun>, b: seq<CaseRun>)
    ensures ConfusionOf(a + b) == ConfusionOf(a).Plus(ConfusionOf(b))
  {
    hide Count;
    forall c ensures Count(a + b, c) == Count(a, c) + Count(b, c) { CountOfConcat(a, b, c); }
  }

  lemma {:induction false} ConfusionTotal(runs: seq<CaseRun>)
    ensures ConfusionOf(runs).Total() == |runs|
    decreases |runs|
  {
    if runs != [] { ConfusionTotal(runs[1..]); }
  }

  lemma {:induction false} AllRunsSize(cases: seq<CaseResult>, runs: nat)
    requires Rectangular(cases, runs)
    ensures |AllRuns(cases)| == |cases| * runs
    decreases |cases|
  {
    if cases != [] {
      AllRunsSize(cases[1..], runs);
      AddProduct(|cases| - 1, runs);
    }
  }

  /** One case's own cells: no true positive or false negative unless a finding is expected. */
  lemma {:induction false} OwnClasses(runs: seq<CaseRun>, e: Expectation)
    requires forall i | 0 <= i < |runs| :: FitsExpectation(e, runs[i].classification)
    ensures e == ExpectNoFinding ==> Count(runs, TruePositive) == 0 && Count(runs, FalseNegative) == 0
    ensures e == ExpectFinding ==> Count(runs, FalsePositive) == 0 && Count(runs, TrueNegative) == 0
    decreases |runs|
  {
    if runs != [] { OwnClasses(runs[1..], e); }
  }

  /** The cells of the cases that expect a finding. */
  lemma {:induction false} PositiveCells(cases: seq<CaseResult>, runs: nat)
    requires Rectangular(cases, runs)
    ensures var all, positive := ConfusionOf(AllRuns(cases)), ConfusionOf(AllRuns(Expecting(cases, ExpectFinding)));
            && all.truePositive == positive.truePositive && all.falseNegative == positive.falseNegative
            && positive.falsePositive == 0 && positive.trueNegative == 0
    ensures Rectangular(Expecting(cases, ExpectFinding), runs)
    decreases |cases|
  {
    hide Count, FitsExpectation, AllRuns, Expecting;
    if cases == [] {
      EmptyConfusion();
      EmptyCases();
    } else {
      var c, rest := cases[0], cases[1..];
      PositiveCells(rest, runs);
      CaseExpectation(cases, runs);
      assert cases == [c] + rest;
      FirstCase(c, rest);
      ExpectStep(cases);
      if c.expected == ExpectFinding {
        FirstCase(c, Expecting(rest, ExpectFinding));
      }
    }
  }

  lemma CaseExpectation(cases: seq<CaseResult>, runs: nat)
    requires cases != [] && Rectangular(cases, runs)
    ensures var c := cases[0];
            && (c.expected == ExpectNoFinding ==> Count(c.runs, TruePositive) == 0 && Count(c.runs, FalseNegative) == 0)
            && (c.expected == ExpectFinding ==> Count(c.runs, FalsePositive) == 0 && Count(c.runs, TrueNegative) == 0)
            && Rectangular(cases[1..], runs)
  {
    OwnClasses(cases[0].runs, cases[0].expected);
  }

  lemma ExpectStep(cases: seq<CaseResult>)
    requires cases != []
    ensures Expecting(cases, ExpectFinding) == (if cases[0].expected == ExpectFinding then [cases[0]] + Expecting(cases[1..], ExpectFinding) else Expecting(cases[1..], ExpectFinding))
  {
  }

  /** Recall divides by every cell that should have been a finding, whatever was observed there. */
  lemma RecallCountsEveryPositiveCell(cases: seq<CaseResult>, runs: nat)
    requires Rectangular(cases, runs)
    ensures RecallDenominator(cases) == |Expecting(cases, ExpectFinding)| * runs
  {
    hide Count, UnresolvedRuns, AllRuns, Expecting, Rectangular;
    var positive := Expecting(cases, ExpectFinding);
    PositiveCells(cases, runs);
    UnresolvedIsTwoClasses(AllRuns(positive));
    ConfusionTotal(AllRuns(positive));
    AllRunsSize(positive, runs);
  }

  /** The six classes partition the case-by-run cells; the unexpected findings are extra false positives. */
  lemma ClassesPartitionCells(ts: seq<Truth>, reports: seq<Report>)
    requires Evaluate(ts, reports).Some?
    ensures var e := Evaluate(ts, reports).value;
            && e.confusion.Total() == |ts| * |reports| + |e.unexpected|
            && RecallDenominator(e.cases) == |Expecting(e.cases, ExpectFinding)| * |reports|
            && 0.0 <= e.recall <= 1.0
  {
    hide NoOverlap, UnexpectedUpTo, RecallDenominator, ConfusionOf;
    var cases := ResultsOf(ts, reports);
    ResultsAreRectangular(ts, reports);
    ConfusionTotal(AllRuns(cases));
    AllRunsSize(cases, |reports|);
    RecallCountsEveryPositiveCell(cases, |reports|);
    RecallIsARatio(cases);
  }

  lemma RecallIsARatio(cases: seq<CaseResult>)
    ensures 0.0 <= Recall(cases) <= 1.0
  {
    RatioBounds(ConfusionOf(AllRuns(cases)).truePositive, RecallDenominator(cases));
  }

  lemma RatioBounds(n: nat, d: nat)
    requires n <= d
    ensures 0.0 <= Ratio(n, d) <= 1.0
  {
  }

  // ---------------------------------------------------------------- categories

  function SumConfusion(rs: seq<CategoryResult>): Confusion
    decreases |rs|
  {
    if rs == [] then ZERO else rs[0].confusion.Plus(SumConfusion(rs[1..]))
  }

  function SumCases(rs: seq<CategoryResult>): nat
    decreases |rs|
  {
    if rs == [] then 0 else rs[0].caseCount + SumCases(rs[1..])
  }

  function SumPositive(rs: seq<CategoryResult>): nat
    decreases |rs|
  {
    if rs == [] then 0 else rs[0].positiveCases + SumPositive(rs[1..])
  }

  /** Category recalls weighted by their positive cases. */
  function WeightedRecall(rs: seq<CategoryResult>): real
    decreases |rs|
  {
    if rs == [] then 0.0 else rs[0].recall * rs[0].positiveCases as real + WeightedRecall(rs[1..])
  }

  lemma {:induction false} SplitCategory(cases: seq<CaseResult>, name: Name, names: set<Name>)
    requires name !in names
    ensures var both, one, others := InCategories(cases, {name} + names), InCategories(cases, {name}), InCategories(cases, names);
            && ConfusionOf(AllRuns(both)) == ConfusionOf(AllRuns(one)).Plus(ConfusionOf(AllRuns(others)))
            && |both| == |one| + |others|
            && |Expecting(both, ExpectFinding)| == |Expecting(one, ExpectFinding)| + |Expecting(others, ExpectFinding)|
    decreases |cases|
  {
    hide ConfusionOf, AllRuns, Expecting, InCategories, CategoryOf, Confusion.Plus;
    if cases == [] {
      EmptyConfusion();
      EmptyCases();
      SelectedOfNone({name} + names);
      SelectedOfNone({name});
      SelectedOfNone(names);
      PlusRegroups(ZERO, ZERO, ZERO);
    } else {
      var rest := cases[1..];
      PlusRegroups(ConfusionOf(cases[0].runs), ConfusionOf(AllRuns(InCategories(rest, {name}))), ConfusionOf(AllRuns(InCategories(rest, names))));
      SplitCategory(cases[1..], name, names);
      SelectStep(cases, {name} + names);
      SelectStep(cases, {name});
      SelectStep(cases, names);
    }
  }

  lemma PlusRegroups(a: Confusion, b: Confusion, c: Confusion)
    ensures a.Plus(b.Plus(c)) == a.Plus(b).Plus(c) == b.Plus(a.Plus(c)) && ZERO.Plus(a) == a
  {
  }

  lemma SelectedOfNone(names: set<Name>)
    ensures InCategories([], names) == []
  {
  }

  lemma EmptyCases()
    ensures AllRuns([]) == [] && Expecting([], ExpectFinding) == []
  {
  }

  lemma EmptyConfusion()
    ensures ConfusionOf([]) == ZERO
  {
  }

  /** The first case adds to a selection's counts, or is not in it. */
  lemma SelectStep(cases: seq<CaseResult>, names: set<Name>)
    requires cases != []
    ensures var c, selected, more := cases[0], InCategories(cases, names), InCategories(cases[1..], names);
            if CategoryOf(c) in names then
              && ConfusionOf(AllRuns(selected)) == ConfusionOf(c.runs).Plus(ConfusionOf(AllRuns(more)))
              && |selected| == 1 + |more|
              && |Expecting(selected, ExpectFinding)| == (if c.expected == ExpectFinding then 1 else 0) + |Expecting(more, ExpectFinding)|
            else selected == more
  {
    hide ConfusionOf, AllRuns, Expecting;
    FirstCase(cases[0], InCategories(cases[1..], names));
  }

  lemma FirstCase(c: CaseResult, rest: seq<CaseResult>)
    ensures ConfusionOf(AllRuns([c] + rest)) == ConfusionOf(c.runs).Plus(ConfusionOf(AllRuns(rest)))
    ensures |Expecting([c] + rest, ExpectFinding)| == (if c.expected == ExpectFinding then 1 else 0) + |Expecting(rest, ExpectFinding)|
  {
    hide ConfusionOf;
    assert ([c] + rest)[1..] == rest;
    assert AllRuns([c] + rest) == c.runs + AllRuns(rest);
    ConfusionOfConcat(c.runs, AllRuns(rest));
  }

  lemma {:induction false} SumOverCategories(cases: seq<CaseResult>, order: seq<Name>)
    requires Distinct(order)
    ensures var rs, selected := CategoryResults(cases, order), InCategories(cases, NamesOf(order));
            && SumConfusion(rs) == ConfusionOf(AllRuns(selected))
            && SumCases(rs) == |selected|
            && SumPositive(rs) == |Expecting(selected, ExpectFinding)|
    decreases |order|
  {
    hide ConfusionOf, Recall, AllRuns, Expecting, InCategories;
    if order == [] {
      EmptyCases();
      NothingSelected(cases);
      EmptyConfusion();
      assert NamesOf(order) == {};
    } else {
      var rest := order[1..];
      SumOverCategories(cases, rest);
      assert CategoryResults(cases, order)[1..] == CategoryResults(cases, rest);
      assert order == [order[0]] + rest;
      assert NamesOf(order) == {order[0]} + NamesOf(rest);
      SplitCategory(cases, order[0], NamesOf(rest));
    }
  }

  lemma {:induction false} NothingSelected(cases: seq<CaseResult>)
    ensures InCategories(cases, {}) == []
    decreases |cases|
  {
    if cases != [] { NothingSelected(cases[1..]); }
  }

  lemma {:induction false} EverythingSelected(cases: seq<CaseResult>, names: set<Name>)
    requires forall k | 0 <= k < |cases| :: CategoryOf(cases[k]) in names
    ensures InCategories(cases, names) == cases
    decreases |cases|
  {
    if cases != [] { EverythingSelected(cases[1..], names); }
  }

  /** The category rows add up to the whole, apart from the unexpected findings. */
  lemma CategoriesAddUp(ts: seq<Truth>, reports: seq<Report>, order: seq<Name>)
    requires Evaluate(ts, reports).Some? && ListsCategories(Evaluate(ts, reports).value.cases, order)
    ensures var e := Evaluate(ts, reports).value; var rs := CategoryResults(e.cases, order);
            && SumConfusion(rs).Plus(ZERO.(falsePositive := |e.unexpected|)) == e.confusion
            && SumCases(rs) == |ts| && SumPositive(rs) == |Expecting(e.cases, ExpectFinding)|
            && WeightedRecall(rs) == e.recall * |Expecting(e.cases, ExpectFinding)| as real
  {
    hide NoOverlap, UnexpectedUpTo, ConfusionOf, Recall, CategoryResults, Expecting, AllRuns, InCategories, SumConfusion, SumCases, SumPositive, WeightedRecall, Rectangular;
    var cases := ResultsOf(ts, reports);
    assert forall k | 0 <= k < |cases| :: cases[k] in cases;
    EverythingSelected(cases, NamesOf(order));
    SumOverCategories(cases, order);
    ResultsAreRectangular(ts, reports);
    WeightedByRun(cases, order, |reports|);
    RecallTimesPositive(cases, |reports|);
  }

  lemma {:induction false} SelectedIsRectangular(cases: seq<CaseResult>, names: set<Name>, runs: nat)
    requires Rectangular(cases, runs)
    ensures Rectangular(InCategories(cases, names), runs)
    decreases |cases|
  {
    if cases != [] { SelectedIsRectangular(cases[1..], names, runs); }
  }

  lemma PositiveProduct(y: real, r: real)
    requires y > 0.0 && r > 0.0
    ensures y * r > 0.0
  {
  }

  lemma QuotientIs(q: real, r: real, x: real)
    requires r > 0.0 && q * r == x
    ensures q == x / r
  {
  }

  lemma ScaledQuotient(x: real, y: real, r: real)
    requires y > 0.0 && r > 0.0 && y * r > 0.0
    ensures x / (y * r) * y == x / r
  {
    var q := x / (y * r);
    assert q * (y * r) == x;
    assert (q * y) * r == q * (y * r);
    QuotientIs(q * y, r, x);
  }

  lemma RatioTimes(n: nat, p: nat, runs: nat)
    requires runs > 0 && n <= p * runs
    ensures Ratio(n, p * runs) * p as real == n as real / runs as real
  {
    if p == 0 {
      SumDivided(0, 0, runs);
    } else {
      PositiveProduct(p as real, runs as real);
      assert (p * runs) as real == p as real * runs as real;
      ScaledQuotient(n as real, p as real, runs as real);
    }
  }

  lemma RecallTimesPositive(cases: seq<CaseResult>, runs: nat)
    requires Rectangular(cases, runs) && runs > 0
    ensures Recall(cases) * |Expecting(cases, ExpectFinding)| as real == ConfusionOf(AllRuns(cases)).truePositive as real / runs as real
  {
    hide Count, AllRuns, Expecting, PositiveUnresolved, Rectangular, Ratio;
    RecallCountsEveryPositiveCell(cases, runs);
    RatioTimes(ConfusionOf(AllRuns(cases)).truePositive, |Expecting(cases, ExpectFinding)|, runs);
  }

  lemma {:induction false} WeightedByRun(cases: seq<CaseResult>, order: seq<Name>, runs: nat)
    requires Rectangular(cases, runs) && runs > 0
    ensures WeightedRecall(CategoryResults(cases, order)) == SumConfusion(CategoryResults(cases, order)).truePositive as real / runs as real
    decreases |order|
  {
    hide ConfusionOf, Recall, Expecting, InCategories, AllRuns, Rectangular;
    if order == [] {
      SumDivided(0, 0, runs);
    } else {
      WeightedByRun(cases, order[1..], runs);
      var rs := CategoryResults(cases, order);
      assert rs[1..] == CategoryResults(cases, order[1..]);
      var selected := InCategories(cases, {order[0]});
      SelectedIsRectangular(cases, {order[0]}, runs);
      RecallTimesPositive(selected, runs);
      SumDivided(rs[0].confusion.truePositive, SumConfusion(rs[1..]).truePositive, runs);
    }
  }

  lemma SumDivided(a: nat, b: nat, d: nat)
    requires d > 0
    ensures (a + b) as real / d as real == a as real / d as real + b as real / d as real
    ensures 0 as real / d as real == 0.0
  {
    assert (a + b) as real == a as real + b as real;
  }

  // ---------------------------------------------------------------- findings are conserved

  /** Findings credited to the cases in run `i`. */
  function Credited(cases: seq<CaseResult>, i: nat): nat
    requires forall k | 0 <= k < |cases| :: i < |cases[k].runs|
    decreases |cases|
  {
    if cases == [] then 0 else |cases[0].runs[i].matched| + Credited(cases[1..], i)
  }

  function MatchedTotal(ts: seq<Truth>, fs: seq<Finding>): nat
    decreases |ts|
  {
    if ts == [] then 0 else |Matched(ts[0].selectors, fs)| + MatchedTotal(ts[1..], fs)
  }

  lemma {:induction false} CreditedIsMatched(ts: seq<Truth>, reports: seq<Report>, i: nat)
    requires i < |reports|
    ensures Credited(ResultsOf(ts, reports), i) == MatchedTotal(ts, reports[i].findings)
    decreases |ts|
  {
    hide Observe, FirstIncluded, Stable;
    if ts != [] {
      CreditedIsMatched(ts[1..], reports, i);
      assert ResultsOf(ts, reports)[1..] == ResultsOf(ts[1..], reports);
    }
  }

  lemma {:induction false} MatchedStep(ts: seq<Truth>, fs: seq<Finding>)
    requires fs != []
    ensures MatchedTotal(ts, fs) == CasesFor(ts, fs[0]) + MatchedTotal(ts, fs[1..])
    decreases |ts|
  {
    hide Selected;
    if ts != [] { MatchedStep(ts[1..], fs); }
  }

  lemma {:induction false} MatchedOfNone(ts: seq<Truth>)
    ensures MatchedTotal(ts, []) == 0
    decreases |ts|
  {
    if ts != [] { MatchedOfNone(ts[1..]); }
  }

  lemma {:induction false} ReportConserves(ts: seq<Truth>, fs: seq<Finding>, run: nat)
    requires forall k | 0 <= k < |fs| :: AtMostOneCase(ts, fs[k])
    ensures MatchedTotal(ts, fs) + |UnexpectedIn(ts, fs, run)| + IgnoredIn(ts, fs) == |fs|
    decreases |fs|
  {
    hide AtMostOneCase, MatchedByAny, NearAny, MatchedTotal, CasesFor;
    if fs == [] {
      MatchedOfNone(ts);
    } else {
      ReportConserves(ts, fs[1..], run);
      MatchedStep(ts, fs);
      CasesForAtMostOne(ts, fs[0]);
      CasesForPositive(ts, fs[0]);
    }
  }

  /** How many listed findings belong to one run. */
  function OfRun(us: seq<Unexpected>, run: nat): nat
    decreases |us|
  {
    if us == [] then 0 else (if us[0].run == run then 1 else 0) + OfRun(us[1..], run)
  }

  lemma {:induction false} OfRunConcat(a: seq<Unexpected>, b: seq<Unexpected>, run: nat)
    ensures OfRun(a + b, run) == OfRun(a, run) + OfRun(b, run)
    decreases |a|
  {
    if a == [] {
      assert a + b == b;
    } else {
      assert (a + b)[1..] == a[1..] + b;
      OfRunConcat(a[1..], b, run);
    }
  }

  lemma {:induction false} OfOneRun(us: seq<Unexpected>, n: nat, run: nat)
    requires forall k | 0 <= k < |us| :: us[k].run == n
    ensures OfRun(us, run) == if n == run then |us| else 0
    decreases |us|
  {
    if us != [] { OfOneRun(us[1..], n, run); }
  }

  lemma {:induction false} ListedUnderRun(ts: seq<Truth>, fs: seq<Finding>, n: nat)
    ensures forall k | 0 <= k < |UnexpectedIn(ts, fs, n)| :: UnexpectedIn(ts, fs, n)[k].run == n
    decreases |fs|
  {
    hide IsUnexpected;
    if fs != [] { ListedUnderRun(ts, fs[1..], n); }
  }

  lemma {:induction false} UnexpectedOfRun(ts: seq<Truth>, reports: seq<Report>, n: nat, i: nat)
    requires n <= |reports|
    ensures OfRun(UnexpectedUpTo(ts, reports, n), i + 1) == if i < n then |UnexpectedIn(ts, reports[i].findings, i + 1)| else 0
    decreases n
  {
    hide UnexpectedIn, OfRun;
    if n == 0 {
      OfOneRun([], 0, i + 1);
    } else {
      UnexpectedOfRun(ts, reports, n - 1, i);
      OfRunConcat(UnexpectedUpTo(ts, reports, n - 1), UnexpectedIn(ts, reports[n - 1].findings, n), i + 1);
      ListedUnderRun(ts, reports[n - 1].findings, n);
      OfOneRun(UnexpectedIn(ts, reports[n - 1].findings, n), n, i + 1);
    }
  }

  /** In an accepted evaluation every reported finding is credited to one case, listed as unexpected, or out of scope: once. */
  lemma FindingsAreConserved(ts: seq<Truth>, reports: seq<Report>, i: nat)
    requires Evaluate(ts, reports).Some? && i < |reports|
    ensures var cases := Evaluate(ts, reports).value.cases;
            && (forall k | 0 <= k < |cases| :: i < |cases[k].runs|)
            && Credited(cases, i) + OfRun(Evaluate(ts, reports).value.unexpected, i + 1) + IgnoredIn(ts, reports[i].findings) == |reports[i].findings|
  {
    hide ConfusionOf, Recall, UnexpectedUpTo, MatchedTotal, IgnoredIn, UnexpectedIn, AtMostOneCase, AtMostOneForObserved;
    assert NoOverlap(ts, reports[i]);
    ReportConserves(ts, reports[i].findings, i + 1);
    UnexpectedOfRun(ts, reports, |reports|, i);
    CreditedIsMatched(ts, reports, i);
  }

  // ---------------------------------------------------------------- required cases

  function Correct(e: Expectation): Class { if e == ExpectFinding then TruePositive else TrueNegative }

  datatype Gate = Gate(caseId: Name, passed: bool)

  function RequiredGatesOf(cases: seq<CaseResult>): seq<Gate>
    decreases |cases|
  {
    if cases == [] then []
    else (if cases[0].required then [Gate(cases[0].id, cases[0].aggregate == Some(Correct(cases[0].expected)))] else [])
         + RequiredGatesOf(cases[1..])
  }

  /** The last loop of `thresholdGates`. */
  method RequiredGates(cases: seq<CaseResult>) returns (gates: seq<Gate>)
    ensures gates == RequiredGatesOf(cases)
  {
    gates := [];
    for k := 0 to |cases|
      invariant gates + RequiredGatesOf(cases[k..]) == RequiredGatesOf(cases)
    {
      assert cases[k..][1..] == cases[k + 1..];
      var item := cases[k];
      if item.required {
        gates := gates + [Gate(item.id, item.aggregate == Some(Correct(item.expected)))];
      }
    }
    assert cases[|cases|..] == [];
  }

  /** The aggregate is the correct class exactly when every repetition observed what was expected. */
  lemma AggregateIsCorrectIff(t: Truth, reports: seq<Report>)
    requires reports != []
    ensures var c := ResultOf(t, reports); c.aggregate == Some(Correct(t.expected)) <==>
              forall i | 0 <= i < |reports| ::
                c.runs[i].observed == (if t.expected == ExpectFinding then SawFinding else SawNoFinding)
  {
    hide Observe, Matched, MatchedCases, FirstIncluded, Stable;
    var runs := CaseRuns(t, reports);
    UnfoldOrder(runs);
    forall i | 0 <= i < |runs|
      ensures runs[i].classification == Correct(t.expected) <==> runs[i].observed == (if t.expected == ExpectFinding then SawFinding else SawNoFinding)
      ensures FitsExpectation(t.expected, runs[i].classification) && Includes(runs, runs[i].classification)
    {
    }
    assert runs[0] in runs;
  }

  lemma UnfoldOrder(runs: seq<CaseRun>)
    ensures FirstIncluded(ORDER, runs) ==
            if Includes(runs, FalsePositive) then Some(FalsePositive)
            else if Includes(runs, FalseNegative) then Some(FalseNegative)
            else if Includes(runs, Inconclusive) then Some(Inconclusive)
            else if Includes(runs, Uncovered) then Some(Uncovered)
            else if Includes(runs, TruePositive) then Some(TruePositive)
            else if Includes(runs, TrueNegative) then Some(TrueNegative)
            else None
  {
    hide Includes;
    assert ORDER[1..] == [FalseNegative, Inconclusive, Uncovered, TruePositive, TrueNegative];
    assert ORDER[1..][1..] == [Inconclusive, Uncovered, TruePositive, TrueNegative];
    assert ORDER[1..][1..][1..] == [Uncovered, TruePositive, TrueNegative];
    assert ORDER[1..][1..][1..][1..] == [TruePositive, TrueNegative];
    assert ORDER[1..][1..][1..][1..][1..] == [TrueNegative];
    assert ORDER[1..][1..][1..][1..][1..][1..] == [];
  }

  predicate AlwaysAsExpected(c: CaseResult) {
    forall i | 0 <= i < |c.runs| :: c.runs[i].observed == (if c.expected == ExpectFinding then SawFinding else SawNoFinding)
  }

  predicate AllPass(gates: seq<Gate>) { forall k | 0 <= k < |gates| :: gates[k].passed }

  lemma {:induction false} GatesPassIff(cases: seq<CaseResult>)
    requires forall k | 0 <= k < |cases| :: cases[k].aggregate == Some(Correct(cases[k].expected)) <==> AlwaysAsExpected(cases[k])
    ensures AllPass(RequiredGatesOf(cases)) <==> forall k | 0 <= k < |cases| && cases[k].required :: AlwaysAsExpected(cases[k])
    decreases |cases|
  {
    hide AlwaysAsExpected;
    if cases != [] {
      var rest := cases[1..];
      GatesPassIff(rest);
      var more := RequiredGatesOf(rest);
      assert forall k | 0 < k < |cases| :: cases[k] == rest[k - 1];
      if cases[0].required {
        var g := Gate(cases[0].id, cases[0].aggregate == Some(Correct(cases[0].expected)));
        assert RequiredGatesOf(cases) == [g] + more;
        assert forall k | 0 <= k < |more| :: ([g] + more)[k + 1] == more[k];
        assert ([g] + more)[0] == g;
      } else {
        assert RequiredGatesOf(cases) == more;
      }
    }
  }

  /** The required-case gates all pass exactly when every required case was observed as expected in every run. */
  lemma RequiredGatesPassIff(ts: seq<Truth>, reports: seq<Report>)
    requires Evaluate(ts, reports).Some?
    ensures var cases := Evaluate(ts, reports).value.cases;
            AllPass(RequiredGatesOf(cases)) <==> forall k | 0 <= k < |cases| && cases[k].required :: AlwaysAsExpected(cases[k])
  {
    hide NoOverlap, UnexpectedUpTo, ConfusionOf, Recall, AllPass, RequiredGatesOf;
    var cases := ResultsOf(ts, reports);
    forall k | 0 <= k < |cases| ensures cases[k].aggregate == Some(Correct(cases[k].expected)) <==> AlwaysAsExpected(cases[k]) {
      AggregateIsCorrectIff(ts[k], reports);
    }
    GatesPassIff(cases);
  }

  // ---------------------------------------------------------------- what the confusion counts mean

  /** The class of a case in a run, read off the report. */
  predicate Belongs(t: Truth, r: Report, k: Class) {
    var found := FoundFor(r.findings, t.selectors) || ProvenFor(r.observed, t.selectors, ConcludedFinding);
    var absent := ProvenFor(r.observed, t.selectors, ConcludedNoFinding);
    match k
    case TruePositive => t.expected == ExpectFinding && found
    case FalsePositive => t.expected == ExpectNoFinding && found
    case FalseNegative => t.expected == ExpectFinding && !found && absent
    case TrueNegative => t.expected == ExpectNoFinding && !found && absent
    case Inconclusive => !found && !absent && ObservedFor(r.observed, t.selectors)
    case Uncovered => !found && !ObservedFor(r.observed, t.selectors)
  }

  function Get(c: Confusion, k: Class): nat {
    match k
    case TruePositive => c.truePositive
    case FalseNegative => c.falseNegative
    case FalsePositive => c.falsePositive
    case TrueNegative => c.trueNegative
    case Inconclusive => c.inconclusive
    case Uncovered => c.uncovered
  }

  lemma ProvenIsObserved(os: seq<ObservedCase>, ss: seq<Selector>, c: Conclusion)
    ensures ProvenFor(os, ss, c) ==> ObservedFor(os, ss)
  {
    hide SelectedCase;
  }

  /** Every cell has the class that its case and report put it in, and no other. */
  lemma ClassMeans(t: Truth, r: Report, run: nat, k: Class)
    ensures ClassifyRun(t.expected, t.selectors, r, run).classification == k <==> Belongs(t, r, k)
  {
    ObservationMeans(t.expected, t.selectors, r, run);
    ProvenIsObserved(r.observed, t.selectors, ConcludedNoFinding);
    hide FoundFor, ProvenFor, ObservedFor, Observe, Matched, MatchedCases;
  }

  function CategoryOfTruth(t: Truth): Name { if t.category.Some? then t.category.value else UNCATEGORIZED }

  /** The runs, among the first `n`, in which the case belongs to the class. */
  function RunsOf(t: Truth, reports: seq<Report>, n: nat, k: Class): set<nat>
    requires n <= |reports|
  {
    set j | 0 <= j < n && Belongs(t, reports[j], k)
  }

  /** Case-run pairs of the first `n` cases: in one of the categories, and in the class. */
  function Pairs(ts: seq<Truth>, reports: seq<Report>, names: set<Name>, n: nat, k: Class): set<(nat, nat)>
    requires n <= |ts|
  {
    set i, j | 0 <= i < n && 0 <= j < |reports| && CategoryOfTruth(ts[i]) in names && Belongs(ts[i], reports[j], k) :: (i, j)
  }

  lemma {:induction false} CountOfRuns(t: Truth, reports: seq<Report>, n: nat, k: Class)
    requires n <= |reports|
    ensures Count(CaseRuns(t, reports)[..n], k) == |RunsOf(t, reports, n, k)|
    decreases n
  {
    hide Belongs, ClassifyRun;
    var runs := CaseRuns(t, reports);
    if n == 0 {
      assert RunsOf(t, reports, 0, k) == {};
    } else {
      CountOfRuns(t, reports, n - 1, k);
      assert runs[..n] == runs[..n - 1] + [runs[n - 1]];
      CountOfConcat(runs[..n - 1], [runs[n - 1]], k);
      assert [runs[n - 1]][1..] == [];
      ClassMeans(t, reports[n - 1], n, k);
      hide RunsOf;
      RunsStep(t, reports, n, k);
    }
  }

  lemma RunsStep(t: Truth, reports: seq<Report>, n: nat, k: Class)
    requires 0 < n <= |reports|
    ensures |RunsOf(t, reports, n, k)| == |RunsOf(t, reports, n - 1, k)| + if Belongs(t, reports[n - 1], k) then 1 else 0
  {
    hide Belongs;
    var before := RunsOf(t, reports, n - 1, k);
    if Belongs(t, reports[n - 1], k) {
      assert RunsOf(t, reports, n, k) == before + {n - 1};
    } else {
      assert RunsOf(t, reports, n, k) == before;
    }
  }

  /** Pairing a set of runs with one case keeps its size. */
  lemma {:induction false} PairedSize(i: nat, js: set<nat>, pairs: set<(nat, nat)>)
    requires forall p :: p in pairs <==> p.0 == i && p.1 in js
    ensures |pairs| == |js|
    decreases |js|
  {
    if js == {} {
      assert pairs == {};
    } else {
      var j :| j in js;
      assert (i, j) in pairs;
      PairedSize(i, js - {j}, pairs - {(i, j)});
    }
  }

  lemma {:induction false} AllRunsOfConcat(a: seq<CaseResult>, b: seq<CaseResult>)
    ensures AllRuns(a + b) == AllRuns(a) + AllRuns(b)
    decreases |a|
  {
    if a == [] {
      assert a + b == b;
    } else {
      assert (a + b)[1..] == a[1..] + b;
      AllRunsOfConcat(a[1..], b);
    }
  }

  lemma {:induction false} SelectedOfConcat(a: seq<CaseResult>, b: seq<CaseResult>, names: set<Name>)
    ensures InCategories(a + b, names) == InCategories(a, names) + InCategories(b, names)
    decreases |a|
  {
    if a == [] {
      assert a + b == b;
    } else {
      assert (a + b)[1..] == a[1..] + b;
      SelectedOfConcat(a[1..], b, names);
      hide CategoryOf;
      var first := if CategoryOf(a[0]) in names then [a[0]] else [];
      assert InCategories(a, names) == first + InCategories(a[1..], names);
      assert InCategories(a + b, names) == first + InCategories(a[1..] + b, names);
    }
  }

  lemma SelectedOfOne(c: CaseResult, names: set<Name>)
    ensures AllRuns(InCategories([c], names)) == if CategoryOf(c) in names then c.runs else []
  {
    assert [c][1..] == [];
    SelectedOfNone(names);
    if CategoryOf(c) in names {
      assert InCategories([c], names) == [c];
    } else {
      assert InCategories([c], names) == [];
    }
  }

  /** Membership of a pair, without the comprehension. */
  predicate Paired(ts: seq<Truth>, reports: seq<Report>, names: set<Name>, n: nat, k: Class, p: (nat, nat))
    requires n <= |ts|
  {
    p.0 < n && p.1 < |reports| && CategoryOfTruth(ts[p.0]) in names && Belongs(ts[p.0], reports[p.1], k)
  }

  lemma PairsMembers(ts: seq<Truth>, reports: seq<Report>, names: set<Name>, n: nat, k: Class)
    requires n <= |ts|
    ensures forall p :: p in Pairs(ts, reports, names, n, k) <==> Paired(ts, reports, names, n, k, p)
  {
    hide Belongs, CategoryOfTruth;
    forall p: (nat, nat) ensures p in Pairs(ts, reports, names, n, k) <==> Paired(ts, reports, names, n, k, p) {
      assert p == (p.0, p.1);
    }
  }

  lemma RunsMembers(t: Truth, reports: seq<Report>, n: nat, k: Class)
    requires n <= |reports|
    ensures forall j: nat :: j in RunsOf(t, reports, n, k) <==> j < n && Belongs(t, reports[j], k)
  {
    hide Belongs;
  }

  /** Adding the pairs of one more case. */
  lemma AddedSize(before: set<(nat, nat)>, after: set<(nat, nat)>, last: nat, js: set<nat>)
    requires forall p :: p in before ==> p.0 != last
    requires forall p :: p in after <==> p in before || (p.0 == last && p.1 in js)
    ensures |after| == |before| + |js|
  {
    var added := after - before;
    assert forall p :: p in added <==> p.0 == last && p.1 in js;
    PairedSize(last, js, added);
    assert after == before + added;
  }

  lemma PairedStep(ts: seq<Truth>, reports: seq<Report>, names: set<Name>, n: nat, k: Class, p: (nat, nat))
    requires 0 < n <= |ts| && CategoryOfTruth(ts[n - 1]) in names
    ensures Paired(ts, reports, names, n, k, p) <==>
            Paired(ts, reports, names, n - 1, k, p) || (p.0 == n - 1 && p.1 in RunsOf(ts[n - 1], reports, |reports|, k))
    ensures Paired(ts, reports, names, n - 1, k, p) ==> p.0 != n - 1
  {
    hide Belongs, CategoryOfTruth, RunsOf;
    RunsMembers(ts[n - 1], reports, |reports|, k);
  }

  lemma PairsStep(ts: seq<Truth>, reports: seq<Report>, names: set<Name>, n: nat, k: Class)
    requires 0 < n <= |ts|
    ensures |Pairs(ts, reports, names, n, k)| == |Pairs(ts, reports, names, n - 1, k)| +
            if CategoryOfTruth(ts[n - 1]) in names then |RunsOf(ts[n - 1], reports, |reports|, k)| else 0
  {
    hide Belongs, CategoryOfTruth, Pairs, RunsOf;
    var before, after := Pairs(ts, reports, names, n - 1, k), Pairs(ts, reports, names, n, k);
    PairsMembers(ts, reports, names, n - 1, k);
    PairsMembers(ts, reports, names, n, k);
    if CategoryOfTruth(ts[n - 1]) in names {
      hide Paired;
      var last: nat, js := n - 1, RunsOf(ts[n - 1], reports, |reports|, k);
      forall p ensures p in after <==> p in before || (p.0 == last && p.1 in js) {
        PairedStep(ts, reports, names, n, k, p);
      }
      forall p ensures p in before ==> p.0 != last {
        PairedStep(ts, reports, names, n, k, p);
      }
      AddedSize(before, after, last, js);
    } else {
      assert after == before;
    }
  }

  /** Counted cells of the cases in some categories are the pairs that belong there. */
  lemma {:induction false} CountIsPairs(ts: seq<Truth>, reports: seq<Report>, names: set<Name>, n: nat, k: Class)
    requires n <= |ts|
    ensures Count(AllRuns(InCategories(ResultsOf(ts, reports)[..n], names)), k) == |Pairs(ts, reports, names, n, k)|
    decreases n
  {
    hide Belongs, InCategories, AllRuns, Count, CategoryOf, ResultOf;
    var all := ResultsOf(ts, reports);
    if n == 0 {
      assert all[..0] == [];
      SelectedOfNone(names);
      EmptyCases();
      CountOfNone(k);
      assert Pairs(ts, reports, names, 0, k) == {};
    } else {
      var c := all[n - 1];
      CountIsPairs(ts, reports, names, n - 1, k);
      assert all[..n] == all[..n - 1] + [c];
      SelectedOfConcat(all[..n - 1], [c], names);
      AllRunsOfConcat(InCategories(all[..n - 1], names), InCategories([c], names));
      SelectedOfOne(c, names);
      CountOfConcat(AllRuns(InCategories(all[..n - 1], names)), AllRuns(InCategories([c], names)), k);
      CountOfNone(k);
      CaseCount(ts[n - 1], reports, k);
      PairsStep(ts, reports, names, n, k);
    }
  }

  lemma CountOfNone(k: Class)
    ensures Count([], k) == 0
  {
  }

  lemma CaseCount(t: Truth, reports: seq<Report>, k: Class)
    ensures Count(ResultOf(t, reports).runs, k) == |RunsOf(t, reports, |reports|, k)|
    ensures CategoryOf(ResultOf(t, reports)) == CategoryOfTruth(t)
  {
    hide Count, RunsOf, FirstIncluded, Stable;
    CountOfRuns(t, reports, |reports|, k);
    assert CaseRuns(t, reports)[..|reports|] == CaseRuns(t, reports);
  }

  lemma GetOfConfusion(runs: seq<CaseRun>, k: Class)
    ensures Get(ConfusionOf(runs), k) == Count(runs, k)
  {
  }

  function Categories(ts: seq<Truth>): set<Name> { set t | t in ts :: CategoryOfTruth(t) }

  lemma AllAreSelected(ts: seq<Truth>, reports: seq<Report>)
    ensures InCategories(ResultsOf(ts, reports), Categories(ts)) == ResultsOf(ts, reports)
  {
    hide FirstIncluded, Stable, CaseRuns;
    forall i | 0 <= i < |ts| ensures CategoryOf(ResultsOf(ts, reports)[i]) in Categories(ts) {
      assert ts[i] in ts;
    }
    EverythingSelected(ResultsOf(ts, reports), Categories(ts));
  }

  /**
   Each of the six counts is the number of case-run pairs whose expectation and report put them in
   that class; the false positives also count the unexpected findings.
   */
  lemma ConfusionMeans(ts: seq<Truth>, reports: seq<Report>, k: Class)
    requires Evaluate(ts, reports).Some?
    ensures var e := Evaluate(ts, reports).value;
            Get(e.confusion, k) == |Pairs(ts, reports, Categories(ts), |ts|, k)| + if k == FalsePositive then |e.unexpected| else 0
  {
    hide NoOverlap, UnexpectedUpTo, Recall, Pairs, Count, InCategories, AllRuns, Categories;
    var cases := ResultsOf(ts, reports);
    CountIsPairs(ts, reports, Categories(ts), |ts|, k);
    assert cases[..|ts|] == cases;
    AllAreSelected(ts, reports);
    GetOfConfusion(AllRuns(cases), k);
  }

  /**
   Recall is the share of true positives among all pairs whose case expects a finding, and zero
   when there is none.
   */
  lemma RecallMeans(ts: seq<Truth>, reports: seq<Report>)
    requires Evaluate(ts, reports).Some?
    ensures var e := Evaluate(ts, reports).value;
            var positives := |Expecting(e.cases, ExpectFinding)| * |reports|;
            && (positives == 0 ==> e.recall == 0.0)
            && e.recall * positives as real == |Pairs(ts, reports, Categories(ts), |ts|, TruePositive)| as real
  {
    hide NoOverlap, UnexpectedUpTo, Pairs, ConfusionOf, AllRuns, Expecting, Categories, Ratio, RecallDenominator;
    var cases := ResultsOf(ts, reports);
    ConfusionMeans(ts, reports, TruePositive);
    ResultsAreRectangular(ts, reports);
    RecallCountsEveryPositiveCell(cases, |reports|);
    TrueAreCounted(cases);
    RatioOf(ConfusionOf(AllRuns(cases)).truePositive, RecallDenominator(cases));
  }

  lemma TrueAreCounted(cases: seq<CaseResult>)
    ensures ConfusionOf(AllRuns(cases)).truePositive <= RecallDenominator(cases)
  {
  }

  lemma RatioOf(n: nat, d: nat)
    requires n <= d
    ensures Ratio(n, d) * d as real == n as real && (d == 0 ==> Ratio(n, d) == 0.0)
  {
  }

  /** The same for every row of the category breakdown. */
  lemma CategoryMeans(ts: seq<Truth>, reports: seq<Report>, order: seq<Name>, pos: nat, k: Class)
    requires Evaluate(ts, reports).Some? && pos < |order|
    ensures var row := CategoryResults(Evaluate(ts, reports).value.cases, order)[pos];
            row.category == order[pos] && Get(row.confusion, k) == |Pairs(ts, reports, {order[pos]}, |ts|, k)|
  {
    hide NoOverlap, UnexpectedUpTo, Recall, Pairs, Count, InCategories, AllRuns, Expecting;
    var cases := ResultsOf(ts, reports);
    CountIsPairs(ts, reports, {order[pos]}, |ts|, k);
    assert cases[..|ts|] == cases;
    GetOfConfusion(AllRuns(InCategories(cases, {order[pos]})), k);
  }

  // ---------------------------------------------------------------- aggregates and gates

  /** In some repetition the case belongs to the class. */
  predicate SomeRun(t: Truth, reports: seq<Report>, k: Class) {
    exists j | 0 <= j < |reports| :: Belongs(t, reports[j], k)
  }

  lemma IncludesIsSomeRun(t: Truth, reports: seq<Report>, k: Class)
    ensures Includes(CaseRuns(t, reports), k) <==> SomeRun(t, reports, k)
  {
    hide Belongs, ClassifyRun;
    var runs := CaseRuns(t, reports);
    forall j | 0 <= j < |reports| ensures runs[j].classification == k <==> Belongs(t, reports[j], k) {
      ClassMeans(t, reports[j], j + 1, k);
    }
  }

  /** A wrong answer in any repetition outweighs an open one, an open one outweighs none at all, and that outweighs a right one. */
  lemma AggregateMeans(t: Truth, reports: seq<Report>)
    requires reports != []
    ensures ResultOf(t, reports).aggregate == Some(
              if SomeRun(t, reports, FalsePositive) then FalsePositive
              else if SomeRun(t, reports, FalseNegative) then FalseNegative
              else if SomeRun(t, reports, Inconclusive) then Inconclusive
              else if SomeRun(t, reports, Uncovered) then Uncovered
              else if t.expected == ExpectFinding then TruePositive else TrueNegative)
  {
    hide Belongs, ClassifyRun, FirstIncluded, Stable, SomeRun;
    var runs := CaseRuns(t, reports);
    UnfoldOrder(runs);
    forall k: Class ensures Includes(runs, k) <==> SomeRun(t, reports, k) {
      IncludesIsSomeRun(t, reports, k);
    }
    FirstRunIsIncluded(t, reports);
  }

  lemma FirstRunIsIncluded(t: Truth, reports: seq<Report>)
    requires reports != []
    ensures exists k :: Includes(CaseRuns(t, reports), k)
    ensures t.expected == ExpectFinding ==> !Includes(CaseRuns(t, reports), TrueNegative)
    ensures t.expected == ExpectNoFinding ==> !Includes(CaseRuns(t, reports), TruePositive)
  {
    hide Observe, Matched, MatchedCases;
    var runs := CaseRuns(t, reports);
    assert Includes(runs, runs[0].classification);
  }

  /** A gate is raised exactly for each required case, under its own id, with its own verdict. */
  lemma {:induction false} GatesAreTheRequiredCases(cases: seq<CaseResult>, g: Gate)
    ensures g in RequiredGatesOf(cases) <==>
            exists k :: 0 <= k < |cases| && cases[k].required && g == Gate(cases[k].id, cases[k].aggregate == Some(Correct(cases[k].expected)))
    decreases |cases|
  {
    if cases != [] {
      var rest := cases[1..];
      GatesAreTheRequiredCases(rest, g);
      assert forall k | 0 < k < |cases| :: cases[k] == rest[k - 1];
    }
  }
}
