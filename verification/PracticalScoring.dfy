/**
 Scoring with fixed denominators: `evaluateApplicationDiscovery`, `commitHeldOutPredictions`,
 `revealHeldOutDiscovery` and `summarizePracticalRuns`.

 A digest is a value that equals another digest only if the contents are equal.
 */
module PracticalScoring {

  import opened Common

  type Id = nat

  datatype Truth = Vulnerable | Secure | Uncertain

  datatype Outcome = Finding | NoFinding | Abstain | Untested

  datatype Case = Case(id: Id, truth: Truth)

  datatype Prediction = Prediction(id: Id, outcome: Outcome)

  datatype Classification =
    | TruePositive | FalsePositive | TrueNegative | FalseNegative
    | CorrectAbstention | UnsafeConclusion | AbstainedKnownTruth | NotTested

  function Classify(truth: Truth, outcome: Outcome): Classification {
    if outcome == Untested then NotTested
    else if truth == Uncertain then (if outcome == Abstain then CorrectAbstention else UnsafeConclusion)
    else if outcome == Abstain then AbstainedKnownTruth
    else if truth == Vulnerable then (if outcome == Finding then TruePositive else FalseNegative)
    else if outcome == Finding then FalsePositive else TrueNegative
  }

  /** The eight counts of a score, a run or a summary. */
  datatype Counts = Counts(
    truePositives: nat, falsePositives: nat, trueNegatives: nat, falseNegatives: nat,
    correctAbstentions: nat, unsafeUncertainConclusions: nat, abstainedKnownTruth: nat, untested: nat)
  {
    function Total(): nat {
      truePositives + falsePositives + trueNegatives + falseNegatives
      + correctAbstentions + unsafeUncertainConclusions + abstainedKnownTruth + untested
    }

    /** One step of `reduce`: key by key. */
    function Plus(o: Counts): Counts {
      Counts(truePositives + o.truePositives, falsePositives + o.falsePositives, trueNegatives + o.trueNegatives,
             falseNegatives + o.falseNegatives, correctAbstentions + o.correctAbstentions,
             unsafeUncertainConclusions + o.unsafeUncertainConclusions, abstainedKnownTruth + o.abstainedKnownTruth,
             untested + o.untested)
    }
  }

  const ZERO: Counts := Counts(0, 0, 0, 0, 0, 0, 0, 0)

  // ---------------------------------------------------------------- lists and their members

  function SetOf<T>(s: seq<T>): set<T> {
    set x | x in s
  }

  lemma {:induction false} DistinctSize<T>(s: seq<T>)
    requires Distinct(s)
    ensures |SetOf(s)| == |s|
    decreases |s|
  {
    if s != [] {
      DistinctSize(s[1..]);
      assert SetOf(s) == SetOf(s[1..]) + {s[0]};
    }
  }

  lemma {:induction false} SetOfSize<T>(s: seq<T>)
    ensures |SetOf(s)| <= |s|
    decreases |s|
  {
    if s != [] {
      SetOfSize(s[1..]);
      assert SetOf(s) == SetOf(s[1..]) + {s[0]};
    } else {
      assert SetOf(s) == {};
    }
  }

  lemma SubsetOfEqualSize<T>(a: set<T>, b: set<T>)
    requires a <= b && |a| >= |b|
    ensures a == b
  {
    assert b == a + (b - a);
  }

  // ---------------------------------------------------------------- one application

  function PredictionIds(ps: seq<Prediction>): seq<Id> {
    seq(|ps|, k requires 0 <= k < |ps| => ps[k].id)
  }

  function CaseIds(cs: seq<Case>): seq<Id> {
    seq(|cs|, k requires 0 <= k < |cs| => cs[k].id)
  }

  /** `predictions.find(...)?.outcome ?? "UNTESTED"` */
  function OutcomeOf(ps: seq<Prediction>, id: Id): Outcome
    decreases |ps|
  {
    if ps == [] then Untested else if ps[0].id == id then ps[0].outcome else OutcomeOf(ps[1..], id)
  }

  datatype Cell = Cell(id: Id, outcome: Outcome, classification: Classification)

  function CellsOf(cs: seq<Case>, ps: seq<Prediction>): seq<Cell> {
    seq(|cs|, k requires 0 <= k < |cs| =>
      Cell(cs[k].id, OutcomeOf(ps, cs[k].id), Classify(cs[k].truth, OutcomeOf(ps, cs[k].id))))
  }

  function CountOf(cells: seq<Cell>, c: Classification): nat
    decreases |cells|
  {
    if cells == [] then 0 else (if cells[0].classification == c then 1 else 0) + CountOf(cells[1..], c)
  }

  function CountsOf(cells: seq<Cell>): Counts {
    Counts(CountOf(cells, TruePositive), CountOf(cells, FalsePositive), CountOf(cells, TrueNegative), CountOf(cells, FalseNegative),
           CountOf(cells, CorrectAbstention), CountOf(cells, UnsafeConclusion), CountOf(cells, AbstainedKnownTruth), CountOf(cells, NotTested))
  }

  datatype Score = Score(cells: seq<Cell>, counts: Counts)

  predicate ExactUniqueCases(cs: seq<Case>, ps: seq<Prediction>) {
    && Distinct(CaseIds(cs)) && Distinct(PredictionIds(ps))
    && forall k | 0 <= k < |ps| :: ps[k].id in CaseIds(cs)
  }

  /** `evaluateApplicationDiscovery`; `None` is `EVALUATION_EXACT_UNIQUE_CASES_REQUIRED`. */
  function Evaluate(cs: seq<Case>, ps: seq<Prediction>): Option<Score> {
    if !ExactUniqueCases(cs, ps) then None
    else
      var cells := CellsOf(cs, ps);
      Some(Score(cells, CountsOf(cells)))
  }

  lemma {:induction false} CountsPartition(cells: seq<Cell>)
    ensures CountsOf(cells).Total() == |cells|
    decreases |cells|
  {
    if cells != [] {
      CountsPartition(cells[1..]);
    }
  }

  // ---------------------------------------------------------------- contract, commitment, reveal

  datatype Application = Application(id: Id, caseIds: seq<Id>, sourceOpportunities: nat, routeOpportunities: nat, requestCeiling: nat)

  datatype OracleDigest = OracleDigest(content: seq<Case>)

  datatype ContractDigest = ContractDigest(content: Contract)

  datatype PredictionDigest = PredictionDigest(content: seq<Measurement>)

  datatype Contract = Contract(oracleDigest: OracleDigest, applications: seq<Application>)

  datatype Measurement = Measurement(applicationId: Id, predictions: seq<Prediction>, observedSources: nat, discoveredRoutes: nat, requests: nat)

  function ApplicationIds(as_: seq<Application>): seq<Id> {
    seq(|as_|, k requires 0 <= k < |as_| => as_[k].id)
  }

  function MeasuredIds(ms: seq<Measurement>): seq<Id> {
    seq(|ms|, k requires 0 <= k < |ms| => ms[k].applicationId)
  }

  function AllCaseIds(as_: seq<Application>): seq<Id>
    decreases |as_|
  {
    if as_ == [] then [] else as_[0].caseIds + AllCaseIds(as_[1..])
  }

  predicate WithinBudget(m: Measurement, a: Application) {
    && m.observedSources <= a.sourceOpportunities && m.discoveredRoutes <= a.routeOpportunities && m.requests <= a.requestCeiling
    && Distinct(PredictionIds(m.predictions))
    && (forall k | 0 <= k < |m.predictions| :: m.predictions[k].id in a.caseIds)
  }

  function FindApplication(as_: seq<Application>, id: Id): Option<Application>
    decreases |as_|
  {
    if as_ == [] then None else if as_[0].id == id then Some(as_[0]) else FindApplication(as_[1..], id)
  }

  /** What `commitHeldOutPredictions` checks. */
  predicate Committable(c: Contract, ms: seq<Measurement>) {
    && Distinct(ApplicationIds(c.applications)) && Distinct(AllCaseIds(c.applications)) && Distinct(MeasuredIds(ms))
    && (forall k | 0 <= k < |ms| ::
          var a := FindApplication(c.applications, ms[k].applicationId); a.Some? && WithinBudget(ms[k], a.value))
  }

  datatype Commitment = Commitment(contractDigest: ContractDigest, measurements: seq<Measurement>, predictionDigest: PredictionDigest)

  function Commit(c: Contract, ms: seq<Measurement>): Option<Commitment> {
    if Committable(c, ms) then Some(Commitment(ContractDigest(c), ms, PredictionDigest(ms))) else None
  }

  /** The measurement is within the fixed opportunities and budget of its application, and predicts only its cases, each once. */
  predicate Measures(m: Measurement, a: Application) {
    && a.id == m.applicationId
    && m.observedSources <= a.sourceOpportunities && m.discoveredRoutes <= a.routeOpportunities && m.requests <= a.requestCeiling
    && (forall j, k | 0 <= j < k < |m.predictions| :: m.predictions[j].id != m.predictions[k].id)
    && (forall k | 0 <= k < |m.predictions| :: m.predictions[k].id in a.caseIds)
  }

  lemma {:induction false} FoundIsThere(as_: seq<Application>, id: Id)
    ensures FindApplication(as_, id).Some? ==> exists i :: 0 <= i < |as_| && as_[i] == FindApplication(as_, id).value && as_[i].id == id
    ensures FindApplication(as_, id).None? ==> forall i | 0 <= i < |as_| :: as_[i].id != id
    decreases |as_|
  {
    if as_ != [] {
      FoundIsThere(as_[1..], id);
      if as_[0].id != id && FindApplication(as_[1..], id).Some? {
        var i :| 0 <= i < |as_[1..]| && as_[1..][i] == FindApplication(as_[1..], id).value && as_[1..][i].id == id;
        assert as_[i + 1] == as_[1..][i];
      } else if as_[0].id != id {
        assert forall i | 0 < i < |as_| :: as_[i] == as_[1..][i - 1];
      } else {
        assert as_[0].id == id;
      }
    }
  }

  lemma BudgetIsMeasured(m: Measurement, a: Application)
    requires a.id == m.applicationId
    ensures WithinBudget(m, a) <==> Measures(m, a)
  {
    var ids := PredictionIds(m.predictions);
    assert forall k | 0 <= k < |ids| :: ids[k] == m.predictions[k].id;
  }

  ghost predicate MeasuresSome(m: Measurement, as_: seq<Application>) {
    exists i :: 0 <= i < |as_| && Measures(m, as_[i])
  }

  lemma MeasuredIff(m: Measurement, as_: seq<Application>)
    requires Distinct(ApplicationIds(as_))
    ensures (FindApplication(as_, m.applicationId).Some? && WithinBudget(m, FindApplication(as_, m.applicationId).value)) <==> MeasuresSome(m, as_)
  {
    hide Measures, WithinBudget;
    FoundIsThere(as_, m.applicationId);
    if FindApplication(as_, m.applicationId).Some? {
      BudgetIsMeasured(m, FindApplication(as_, m.applicationId).value);
    }
    if i :| 0 <= i < |as_| && Measures(m, as_[i]) {
      MeasuresItsOwn(m, as_[i]);
      FoundByIndex(as_, i);
      BudgetIsMeasured(m, as_[i]);
    }
  }

  lemma MeasuresItsOwn(m: Measurement, a: Application)
    requires Measures(m, a)
    ensures a.id == m.applicationId
  {
  }

  /** A commitment is made if and only if ids are unique and every measurement fits an application of the contract; it binds contract and measurements. */
  lemma CommitSucceedsIff(c: Contract, ms: seq<Measurement>)
    ensures Commit(c, ms).Some? <==>
            && Distinct(ApplicationIds(c.applications)) && Distinct(AllCaseIds(c.applications)) && Distinct(MeasuredIds(ms))
            && forall k | 0 <= k < |ms| :: MeasuresSome(ms[k], c.applications)
    ensures Commit(c, ms).Some? ==>
              var r := Commit(c, ms).value; r.measurements == ms && r.contractDigest.content == c && r.predictionDigest.content == ms
  {
    hide MeasuresSome, WithinBudget;
    if Distinct(ApplicationIds(c.applications)) {
      forall k | 0 <= k < |ms|
        ensures (FindApplication(c.applications, ms[k].applicationId).Some? && WithinBudget(ms[k], FindApplication(c.applications, ms[k].applicationId).value)) <==> MeasuresSome(ms[k], c.applications)
      {
        MeasuredIff(ms[k], c.applications);
      }
    }
  }

  /** `commitHeldOutPredictions`, with its loop over the measurements. */
  method CommitPredictions(c: Contract, ms: seq<Measurement>) returns (r: Option<Commitment>)
    ensures r == Commit(c, ms)
  {
    if !Distinct(ApplicationIds(c.applications)) || !Distinct(AllCaseIds(c.applications)) || !Distinct(MeasuredIds(ms)) {
      return None;
    }
    for k := 0 to |ms|
      invariant forall j | 0 <= j < k ::
        var a := FindApplication(c.applications, ms[j].applicationId); a.Some? && WithinBudget(ms[j], a.value)
    {
      var a := FindApplication(c.applications, ms[k].applicationId);
      if a.None? || !WithinBudget(ms[k], a.value) {
        return None;
      }
    }
    return Some(Commitment(ContractDigest(c), ms, PredictionDigest(ms)));
  }

  function PredictionsFor(ms: seq<Measurement>, id: Id): seq<Prediction>
    decreases |ms|
  {
    if ms == [] then [] else if ms[0].applicationId == id then ms[0].predictions else PredictionsFor(ms[1..], id)
  }

  /** `oracle.cases.filter((c) => a.caseIds.includes(c.id))` */
  function CasesOf(oracle: seq<Case>, ids: seq<Id>): seq<Case>
    decreases |oracle|
  {
    if oracle == [] then [] else (if oracle[0].id in ids then [oracle[0]] else []) + CasesOf(oracle[1..], ids)
  }

  predicate ExactMembership(oracle: seq<Case>, ids: seq<Id>) {
    && |oracle| == |ids| && |SetOf(CaseIds(oracle))| == |ids|
    && (forall k | 0 <= k < |oracle| :: oracle[k].id in ids)
  }

  datatype ScoredApplication = ScoredApplication(id: Id, score: Score)

  datatype RunScore = RunScore(applications: seq<ScoredApplication>, counts: Counts)

  function ScoreAll(as_: seq<Application>, ms: seq<Measurement>, oracle: seq<Case>): Option<seq<ScoredApplication>>
    decreases |as_|
  {
    if as_ == [] then Some([])
    else match Evaluate(CasesOf(oracle, as_[0].caseIds), PredictionsFor(ms, as_[0].id))
      case None => None
      case Some(score) => match ScoreAll(as_[1..], ms, oracle)
        case None => None
        case Some(rest) => Some([ScoredApplication(as_[0].id, score)] + rest)
  }

  function SumCounts(scored: seq<ScoredApplication>): Counts
    decreases |scored|
  {
    if scored == [] then ZERO else scored[0].score.counts.Plus(SumCounts(scored[1..]))
  }

  /** `revealHeldOutDiscovery`; `None` is any of its errors. */
  function Reveal(c: Contract, r: Commitment, oracle: seq<Case>): Option<RunScore> {
    match Commit(c, r.measurements)
    case None => None
    case Some(bound) =>
      if r.contractDigest != bound.contractDigest || r.predictionDigest != bound.predictionDigest || OracleDigest(oracle) != c.oracleDigest then None
      else if !ExactMembership(oracle, AllCaseIds(c.applications)) then None
      else match ScoreAll(c.applications, r.measurements, oracle)
        case None => None
        case Some(scored) => Some(RunScore(scored, SumCounts(scored)))
  }

  // ---------------------------------------------------------------- runs and summary

  datatype Manifest = Manifest(repetitions: nat, contract: Contract)

  datatype ManifestDigest = ManifestDigest(content: Manifest)

  datatype Receipt = Receipt(runId: Id, manifestDigest: ManifestDigest, prediction: Commitment)

  function ScoreRun(m: Manifest, r: Receipt, oracle: seq<Case>): Option<RunScore> {
    if r.manifestDigest != ManifestDigest(m) then None else Reveal(m.contract, r.prediction, oracle)
  }

  function ScoreRuns(m: Manifest, rs: seq<Receipt>, oracle: seq<Case>): (r: Option<seq<RunScore>>)
    ensures r.Some? ==> |r.value| == |rs|
    decreases |rs|
  {
    if rs == [] then Some([])
    else match ScoreRun(m, rs[0], oracle)
      case None => None
      case Some(run) => match ScoreRuns(m, rs[1..], oracle)
        case None => None
        case Some(rest) => Some([run] + rest)
  }

  function RunIds(rs: seq<Receipt>): seq<Id> {
    seq(|rs|, k requires 0 <= k < |rs| => rs[k].runId)
  }

  function SumRuns(runs: seq<RunScore>): Counts
    decreases |runs|
  {
    if runs == [] then ZERO else runs[0].counts.Plus(SumRuns(runs[1..]))
  }

  /** The seed of the summary's `reduce`: missing runs count as untested. */
  function MissingCounts(missing: nat, cases: nat): Counts {
    ZERO.(untested := Product(missing, cases))
  }

  datatype Summary = Summary(counts: Counts, caseOpportunities: nat, missingRuns: nat, runs: seq<RunScore>)

  function SummaryOf(m: Manifest, runs: seq<RunScore>): Summary
    requires |runs| <= m.repetitions
  {
    var cases: nat := |AllCaseIds(m.contract.applications)|;
    var missing: nat := m.repetitions - |runs|;
    Summary(MissingCounts(missing, cases).Plus(SumRuns(runs)), Product(cases, m.repetitions), missing, runs)
  }

  /** `summarizePracticalRuns`, its counts; `None` is any error. */
  function Summarize(m: Manifest, rs: seq<Receipt>, oracle: seq<Case>): Option<Summary> {
    if |rs| > m.repetitions || !Distinct(RunIds(rs)) then None
    else match ScoreRuns(m, rs, oracle)
      case None => None
      case Some(runs) => Some(SummaryOf(m, runs))
  }

  // ---------------------------------------------------------------- the denominators are fixed

  lemma OracleCoversCases(oracle: seq<Case>, ids: seq<Id>)
    requires ExactMembership(oracle, ids)
    ensures SetOf(CaseIds(oracle)) == SetOf(ids)
  {
    var seen := SetOf(CaseIds(oracle));
    forall x | x in seen ensures x in SetOf(ids) {
      var k :| 0 <= k < |oracle| && CaseIds(oracle)[k] == x;
      assert oracle[k].id in ids;
    }
    SetOfSize(ids);
    SubsetOfEqualSize(seen, SetOf(ids));
  }

  lemma {:induction false} DistinctFromSize<T>(s: seq<T>)
    requires |SetOf(s)| == |s|
    ensures Distinct(s)
    decreases |s|
  {
    if s != [] {
      var rest := s[1..];
      assert SetOf(s) == SetOf(rest) + {s[0]};
      SetOfSize(rest);
      DistinctFromSize(rest);
      assert s[0] !in SetOf(rest);
      forall j, k | 0 <= j < k < |s| ensures s[j] != s[k] {
        assert s[k] == rest[k - 1];
        if j > 0 { assert s[j] == rest[j - 1]; }
      }
    }
  }

  /** The filtered cases: distinct ids, and exactly the wanted ones that the oracle has. */
  lemma {:induction false} CasesOfIds(oracle: seq<Case>, ids: seq<Id>)
    requires Distinct(CaseIds(oracle))
    ensures Distinct(CaseIds(CasesOf(oracle, ids)))
    ensures SetOf(CaseIds(CasesOf(oracle, ids))) == SetOf(CaseIds(oracle)) * SetOf(ids)
    decreases |oracle|
  {
    if oracle == [] {
      assert CaseIds(CasesOf(oracle, ids)) == [] && CaseIds(oracle) == [];
    } else {
      var rest := oracle[1..];
      assert CaseIds(rest) == CaseIds(oracle)[1..];
      CasesOfIds(rest, ids);
      var more := CasesOf(rest, ids);
      assert CaseIds(oracle) == [oracle[0].id] + CaseIds(rest);
      forall k | 0 <= k < |rest| ensures oracle[0].id != rest[k].id {
        assert CaseIds(oracle)[0] != CaseIds(oracle)[k + 1];
      }
      if oracle[0].id in ids {
        assert CaseIds(CasesOf(oracle, ids)) == [oracle[0].id] + CaseIds(more);
        DistinctCons(oracle[0].id, CaseIds(more));
      } else {
        assert CasesOf(oracle, ids) == more;
      }
    }
  }

  lemma DistinctCons<T>(x: T, s: seq<T>)
    requires Distinct(s) && x !in SetOf(s)
    ensures Distinct([x] + s) && SetOf([x] + s) == {x} + SetOf(s)
  {
  }

  lemma {:induction false} CaseIdsMember(as_: seq<Application>, k: nat)
    requires k < |as_|
    ensures SetOf(as_[k].caseIds) <= SetOf(AllCaseIds(as_))
    ensures Distinct(AllCaseIds(as_)) ==> Distinct(as_[k].caseIds)
    decreases k
  {
    var first, rest := as_[0].caseIds, AllCaseIds(as_[1..]);
    assert AllCaseIds(as_) == first + rest;
    if Distinct(first + rest) {
      assert forall i | 0 <= i < |first| :: (first + rest)[i] == first[i];
      assert forall i | 0 <= i < |rest| :: (first + rest)[|first| + i] == rest[i];
    }
    if k > 0 {
      CaseIdsMember(as_[1..], k - 1);
    }
  }

  /** An application is scored on as many cases as the contract gives it, whatever was predicted. */
  lemma CasesOfSize(oracle: seq<Case>, as_: seq<Application>, k: nat)
    requires ExactMembership(oracle, AllCaseIds(as_)) && Distinct(AllCaseIds(as_)) && k < |as_|
    ensures var cs := CasesOf(oracle, as_[k].caseIds);
            |cs| == |as_[k].caseIds| && Distinct(CaseIds(cs)) && SetOf(CaseIds(cs)) == SetOf(as_[k].caseIds)
  {
    OracleCoversCases(oracle, AllCaseIds(as_));
    DistinctFromSize(CaseIds(oracle));
    CasesOfIds(oracle, as_[k].caseIds);
    CaseIdsMember(as_, k);
    var cs := CasesOf(oracle, as_[k].caseIds);
    assert SetOf(CaseIds(cs)) == SetOf(as_[k].caseIds);
    DistinctSize(CaseIds(cs));
    DistinctSize(as_[k].caseIds);
  }

  lemma EvaluatedTotal(cs: seq<Case>, ps: seq<Prediction>)
    requires Evaluate(cs, ps).Some?
    ensures Evaluate(cs, ps).value.counts.Total() == |cs|
  {
    CountsPartition(CellsOf(cs, ps));
  }

  /** Scores of the applications `as_[k..]` add up to their cases. */
  lemma {:induction false} ScoredTotals(as_: seq<Application>, ms: seq<Measurement>, oracle: seq<Case>, k: nat)
    requires k <= |as_| && ExactMembership(oracle, AllCaseIds(as_)) && Distinct(AllCaseIds(as_))
    requires ScoreAll(as_[k..], ms, oracle).Some?
    ensures var scored := ScoreAll(as_[k..], ms, oracle).value;
            && |scored| == |as_| - k && SumCounts(scored).Total() == |AllCaseIds(as_[k..])|
            && (forall i | 0 <= i < |scored| :: scored[i].id == as_[k + i].id && scored[i].score.counts.Total() == |as_[k + i].caseIds|)
    decreases |as_| - k
  {
    if k < |as_| {
      var a := as_[k];
      assert as_[k..][0] == a && as_[k..][1..] == as_[k + 1..];
      CasesOfSize(oracle, as_, k);
      EvaluatedTotal(CasesOf(oracle, a.caseIds), PredictionsFor(ms, a.id));
      ScoredTotals(as_, ms, oracle, k + 1);
    }
  }

  /** A revealed run accounts for every case of the contract, application by application, predicted or not. */
  lemma RevealedTotals(c: Contract, r: Commitment, oracle: seq<Case>)
    requires Reveal(c, r, oracle).Some?
    ensures var run := Reveal(c, r, oracle).value;
            && run.counts.Total() == |AllCaseIds(c.applications)|
            && |run.applications| == |c.applications|
            && (forall k | 0 <= k < |run.applications| ::
                  run.applications[k].id == c.applications[k].id && run.applications[k].score.counts.Total() == |c.applications[k].caseIds|)
  {
    assert c.applications[0..] == c.applications;
    ScoredTotals(c.applications, r.measurements, oracle, 0);
  }

  lemma ScoredRunTotal(m: Manifest, r: Receipt, oracle: seq<Case>)
    requires ScoreRun(m, r, oracle).Some?
    ensures ScoreRun(m, r, oracle).value.counts.Total() == |AllCaseIds(m.contract.applications)|
  {
    RevealedTotals(m.contract, r.prediction, oracle);
  }

  lemma {:induction false} RunsTotal(m: Manifest, rs: seq<Receipt>, oracle: seq<Case>)
    requires ScoreRuns(m, rs, oracle).Some?
    ensures var runs := ScoreRuns(m, rs, oracle).value;
            |runs| == |rs| && SumRuns(runs).Total() == |rs| * |AllCaseIds(m.contract.applications)|
    decreases |rs|
  {
    hide ScoreRun, AllCaseIds;
    if rs != [] {
      RunsTotal(m, rs[1..], oracle);
      ScoredRunTotal(m, rs[0], oracle);
      var runs := ScoreRuns(m, rs, oracle).value;
      assert runs[1..] == ScoreRuns(m, rs[1..], oracle).value;
      AddProduct(|rs| - 1, |AllCaseIds(m.contract.applications)|);
    }
  }

  /**
   For any accepted receipts, missing runs and missing predictions included, the eight counts of
   the summary add up to cases times expected repetitions.
   */
  lemma DenominatorsAreFixed(m: Manifest, rs: seq<Receipt>, oracle: seq<Case>)
    requires Summarize(m, rs, oracle).Some?
    ensures var s := Summarize(m, rs, oracle).value;
            && s.counts.Total() == |AllCaseIds(m.contract.applications)| * m.repetitions == s.caseOpportunities
            && s.missingRuns + |rs| == m.repetitions
  {
    hide ScoreRuns, SumRuns, AllCaseIds;
    RunsTotal(m, rs, oracle);
    SplitProduct(|rs|, m.repetitions - |rs|, |AllCaseIds(m.contract.applications)|);
  }

  /** A receipt that commits to the manifest's contract is never refused by the scorer itself. */
  lemma {:induction false} CommittedIsScored(as_: seq<Application>, ms: seq<Measurement>, oracle: seq<Case>, k: nat)
    requires k <= |as_| && ExactMembership(oracle, AllCaseIds(as_)) && Distinct(AllCaseIds(as_)) && Distinct(ApplicationIds(as_))
    requires forall i | 0 <= i < |ms| :: var a := FindApplication(as_, ms[i].applicationId); a.Some? && WithinBudget(ms[i], a.value)
    ensures ScoreAll(as_[k..], ms, oracle).Some?
    decreases |as_| - k
  {
    if k < |as_| {
      var a := as_[k];
      assert as_[k..][0] == a && as_[k..][1..] == as_[k + 1..];
      CasesOfSize(oracle, as_, k);
      FoundByIndex(as_, k);
      PredictionsFit(ms, as_, a);
      var ps := PredictionsFor(ms, a.id);
      forall i | 0 <= i < |ps| ensures ps[i].id in CaseIds(CasesOf(oracle, a.caseIds)) {
        assert ps[i].id in SetOf(a.caseIds);
      }
      CommittedIsScored(as_, ms, oracle, k + 1);
    }
  }

  lemma {:induction false} FoundByIndex(as_: seq<Application>, k: nat)
    requires k < |as_| && Distinct(ApplicationIds(as_))
    ensures FindApplication(as_, as_[k].id) == Some(as_[k])
    decreases k
  {
    if k > 0 {
      assert ApplicationIds(as_)[0] != ApplicationIds(as_)[k];
      assert ApplicationIds(as_[1..]) == ApplicationIds(as_)[1..];
      FoundByIndex(as_[1..], k - 1);
    }
  }

  lemma {:induction false} PredictionsFit(ms: seq<Measurement>, as_: seq<Application>, a: Application)
    requires FindApplication(as_, a.id) == Some(a)
    requires forall i | 0 <= i < |ms| :: var b := FindApplication(as_, ms[i].applicationId); b.Some? && WithinBudget(ms[i], b.value)
    ensures var ps := PredictionsFor(ms, a.id);
            Distinct(PredictionIds(ps)) && forall i | 0 <= i < |ps| :: ps[i].id in a.caseIds
    decreases |ms|
  {
    if ms != [] && ms[0].applicationId != a.id {
      PredictionsFit(ms[1..], as_, a);
    }
  }

  /** Reveal is refused exactly for a broken commitment or a mismatched oracle. */
  lemma RevealSucceedsIff(c: Contract, r: Commitment, oracle: seq<Case>)
    ensures Reveal(c, r, oracle).Some? <==>
            && Commit(c, r.measurements) == Some(r) && c.oracleDigest == OracleDigest(oracle)
            && ExactMembership(oracle, AllCaseIds(c.applications))
  {
    if Commit(c, r.measurements) == Some(r) && ExactMembership(oracle, AllCaseIds(c.applications)) {
      assert c.applications[0..] == c.applications;
      CommittedIsScored(c.applications, r.measurements, oracle, 0);
    }
  }

  // ---------------------------------------------------------------- cells against counts

  function IsUntested(o: Outcome): nat { if o == Untested then 1 else 0 }

  /** Untested outcomes over a list of case ids, in one run. */
  function UntestedIn(ids: seq<Id>, ps: seq<Prediction>): nat
    decreases |ids|
  {
    if ids == [] then 0 else IsUntested(OutcomeOf(ps, ids[0])) + UntestedIn(ids[1..], ps)
  }

  function UntestedSet(ids: set<Id>, ps: seq<Prediction>): set<Id> {
    set x | x in ids && OutcomeOf(ps, x) == Untested
  }

  lemma SetOfFirst(ids: seq<Id>)
    requires ids != [] && Distinct(ids)
    ensures SetOf(ids) == {ids[0]} + SetOf(ids[1..]) && ids[0] !in SetOf(ids[1..])
  {
  }

  lemma UntestedSetStep(x: Id, ids: set<Id>, ps: seq<Prediction>)
    requires x !in ids
    ensures |UntestedSet({x} + ids, ps)| == IsUntested(OutcomeOf(ps, x)) + |UntestedSet(ids, ps)|
  {
    hide OutcomeOf;
    if OutcomeOf(ps, x) == Untested {
      assert UntestedSet({x} + ids, ps) == {x} + UntestedSet(ids, ps);
    } else {
      assert UntestedSet({x} + ids, ps) == UntestedSet(ids, ps);
    }
  }

  lemma {:induction false} UntestedAsSet(ids: seq<Id>, ps: seq<Prediction>)
    requires Distinct(ids)
    ensures UntestedIn(ids, ps) == |UntestedSet(SetOf(ids), ps)|
    decreases |ids|
  {
    if ids == [] {
      assert UntestedSet(SetOf(ids), ps) == {};
    } else {
      hide UntestedSet, SetOf, OutcomeOf;
      UntestedAsSet(ids[1..], ps);
      SetOfFirst(ids);
      UntestedSetStep(ids[0], SetOf(ids[1..]), ps);
    }
  }

  lemma {:induction false} UntestedInCells(cs: seq<Case>, ps: seq<Prediction>)
    ensures CountOf(CellsOf(cs, ps), NotTested) == UntestedIn(CaseIds(cs), ps)
    decreases |cs|
  {
    if cs != [] {
      UntestedInCells(cs[1..], ps);
      assert CellsOf(cs, ps)[1..] == CellsOf(cs[1..], ps);
      assert CaseIds(cs)[1..] == CaseIds(cs[1..]);
    }
  }

  /** The order in which cases are listed does not matter. */
  lemma UntestedByEitherOrder(cs: seq<Case>, ids: seq<Id>, ps: seq<Prediction>)
    requires Distinct(ids) && Distinct(CaseIds(cs)) && SetOf(CaseIds(cs)) == SetOf(ids)
    ensures CountOf(CellsOf(cs, ps), NotTested) == UntestedIn(ids, ps)
  {
    UntestedInCells(cs, ps);
    UntestedAsSet(ids, ps);
    UntestedAsSet(CaseIds(cs), ps);
  }

  /** The outcomes of one cell of the summary, one per executed run, padded with `UNTESTED`. */
  function CellOutcomes(runs: seq<seq<Measurement>>, app: Id, case_: Id, repetitions: nat): seq<Outcome>
    requires |runs| <= repetitions
  {
    seq(repetitions, k requires 0 <= k < repetitions => if k < |runs| then OutcomeOf(PredictionsFor(runs[k], app), case_) else Untested)
  }

  function FindScored(scored: seq<ScoredApplication>, id: Id): Option<Score>
    decreases |scored|
  {
    if scored == [] then None else if scored[0].id == id then Some(scored[0].score) else FindScored(scored[1..], id)
  }

  function FindCell(cells: seq<Cell>, id: Id): Option<Cell>
    decreases |cells|
  {
    if cells == [] then None else if cells[0].id == id then Some(cells[0]) else FindCell(cells[1..], id)
  }

  /** `r.applications.find(...)!.score.cells.find(...)!.outcome`; `None` where a `!` would be wrong. */
  function OutcomeIn(run: RunScore, app: Id, case_: Id): Option<Outcome> {
    match FindScored(run.applications, app)
    case None => None
    case Some(score) => match FindCell(score.cells, case_)
      case None => None
      case Some(cell) => Some(cell.outcome)
  }

  lemma {:induction false} CellIsFound(cs: seq<Case>, ps: seq<Prediction>, id: Id)
    requires id in SetOf(CaseIds(cs))
    ensures var c := FindCell(CellsOf(cs, ps), id); c.Some? && c.value.outcome == OutcomeOf(ps, id)
    decreases |cs|
  {
    if cs[0].id != id {
      assert CaseIds(cs) == [cs[0].id] + CaseIds(cs[1..]);
      CellIsFound(cs[1..], ps, id);
      assert CellsOf(cs, ps)[1..] == CellsOf(cs[1..], ps);
    }
  }

  lemma {:induction false} ScoreIsFound(as_: seq<Application>, ms: seq<Measurement>, oracle: seq<Case>, k: nat)
    requires k < |as_| && Distinct(ApplicationIds(as_)) && ScoreAll(as_, ms, oracle).Some?
    ensures FindScored(ScoreAll(as_, ms, oracle).value, as_[k].id) ==
            Evaluate(CasesOf(oracle, as_[k].caseIds), PredictionsFor(ms, as_[k].id))
    ensures FindScored(ScoreAll(as_, ms, oracle).value, as_[k].id).Some?
    decreases k
  {
    hide Evaluate, CasesOf, PredictionsFor;
    if k > 0 {
      assert ApplicationIds(as_)[0] != ApplicationIds(as_)[k];
      assert ApplicationIds(as_[1..]) == ApplicationIds(as_)[1..];
      ScoreIsFound(as_[1..], ms, oracle, k - 1);
      var scored := ScoreAll(as_, ms, oracle).value;
      assert scored[1..] == ScoreAll(as_[1..], ms, oracle).value;
    }
  }

  /** In an accepted run both look-ups succeed, and what they find is the run's own prediction or `UNTESTED`. */
  lemma LookupsSucceed(m: Manifest, r: Receipt, oracle: seq<Case>, k: nat, case_: Id)
    requires ScoreRun(m, r, oracle).Some? && k < |m.contract.applications| && case_ in m.contract.applications[k].caseIds
    ensures var app := m.contract.applications[k].id;
            OutcomeIn(ScoreRun(m, r, oracle).value, app, case_) == Some(OutcomeOf(PredictionsFor(r.prediction.measurements, app), case_))
  {
    hide OutcomeOf, PredictionsFor, SumCounts, CountsOf, CellsOf, CasesOf, ScoreAll;
    var as_, ms := m.contract.applications, r.prediction.measurements;
    ScoreIsFound(as_, ms, oracle, k);
    CasesOfSize(oracle, as_, k);
    assert case_ in SetOf(as_[k].caseIds);
    CellIsFound(CasesOf(oracle, as_[k].caseIds), PredictionsFor(ms, as_[k].id), case_);
    assert FindScored(ScoreRun(m, r, oracle).value.applications, as_[k].id).value.cells ==
           CellsOf(CasesOf(oracle, as_[k].caseIds), PredictionsFor(ms, as_[k].id));
  }

  lemma {:induction false} RunAt(m: Manifest, rs: seq<Receipt>, oracle: seq<Case>, k: nat)
    requires ScoreRuns(m, rs, oracle).Some? && k < |rs|
    ensures ScoreRun(m, rs[k], oracle) == Some(ScoreRuns(m, rs, oracle).value[k])
    decreases k
  {
    hide ScoreRun;
    if k > 0 { RunAt(m, rs[1..], oracle, k - 1); }
  }

  /** One cell of the summary: the runs' outcomes, then the padding loop. */
  method OutcomeRow(m: Manifest, rs: seq<Receipt>, oracle: seq<Case>, runs: seq<RunScore>, k: nat, case_: Id) returns (outcomes: seq<Outcome>)
    requires ScoreRuns(m, rs, oracle) == Some(runs) && |rs| <= m.repetitions
    requires k < |m.contract.applications| && case_ in m.contract.applications[k].caseIds
    ensures outcomes == CellOutcomes(MeasurementsOf(rs), m.contract.applications[k].id, case_, m.repetitions)
  {
    hide ScoreRuns, ScoreRun, OutcomeIn, OutcomeOf, PredictionsFor;
    var app := m.contract.applications[k].id;
    forall i | 0 <= i < |runs|
      ensures OutcomeIn(runs[i], app, case_) == Some(OutcomeOf(PredictionsFor(rs[i].prediction.measurements, app), case_))
    {
      RunAt(m, rs, oracle, i);
      LookupsSucceed(m, rs[i], oracle, k, case_);
    }
    outcomes := seq(|runs|, i requires 0 <= i < |runs| && OutcomeIn(runs[i], app, case_).Some? => OutcomeIn(runs[i], app, case_).value);
    while |outcomes| < m.repetitions
      invariant |runs| <= |outcomes| <= m.repetitions
      invariant outcomes == CellOutcomes(MeasurementsOf(rs), app, case_, |outcomes|)
      decreases m.repetitions - |outcomes|
    {
      outcomes := outcomes + [Untested];
    }
  }

  /** The summary's `reduce` over the executed runs. */
  method AddRuns(missing: nat, cases: nat, runs: seq<RunScore>) returns (sum: Counts)
    ensures sum == MissingCounts(missing, cases).Plus(SumRuns(runs))
  {
    sum := MissingCounts(missing, cases);
    var k := 0;
    while k < |runs|
      invariant 0 <= k <= |runs|
      invariant sum.Plus(SumRuns(runs[k..])) == MissingCounts(missing, cases).Plus(SumRuns(runs))
    {
      assert runs[k..][1..] == runs[k + 1..];
      sum := sum.Plus(runs[k].counts);
      k := k + 1;
    }
  }

  function UntestedOutcomes(os: seq<Outcome>): nat
    decreases |os|
  {
    if os == [] then 0 else IsUntested(os[0]) + UntestedOutcomes(os[1..])
  }

  /** Untested outcomes over all cells of the given cases of one application. */
  function UntestedCells(runs: seq<seq<Measurement>>, app: Id, ids: seq<Id>, repetitions: nat): nat
    requires |runs| <= repetitions
    decreases |ids|
  {
    if ids == [] then 0
    else UntestedOutcomes(CellOutcomes(runs, app, ids[0], repetitions)) + UntestedCells(runs, app, ids[1..], repetitions)
  }

  function UntestedSummary(runs: seq<seq<Measurement>>, as_: seq<Application>, repetitions: nat): nat
    requires |runs| <= repetitions
    decreases |as_|
  {
    if as_ == [] then 0
    else UntestedCells(runs, as_[0].id, as_[0].caseIds, repetitions) + UntestedSummary(runs, as_[1..], repetitions)
  }

  lemma {:induction false} PaddingIsUntested(app: Id, case_: Id, repetitions: nat)
    ensures UntestedOutcomes(CellOutcomes([], app, case_, repetitions)) == repetitions
    decreases repetitions
  {
    if repetitions > 0 {
      PaddingIsUntested(app, case_, repetitions - 1);
      assert CellOutcomes([], app, case_, repetitions)[1..] == CellOutcomes([], app, case_, repetitions - 1);
    }
  }

  /** Taking one run out of every cell of an application. */
  lemma {:induction false} CellsByRun(runs: seq<seq<Measurement>>, app: Id, ids: seq<Id>, repetitions: nat)
    requires 0 < |runs| <= repetitions
    ensures UntestedCells(runs, app, ids, repetitions) ==
            UntestedIn(ids, PredictionsFor(runs[0], app)) + UntestedCells(runs[1..], app, ids, repetitions - 1)
    decreases |ids|
  {
    if ids != [] {
      CellsByRun(runs, app, ids[1..], repetitions);
      var os := CellOutcomes(runs, app, ids[0], repetitions);
      assert os[1..] == CellOutcomes(runs[1..], app, ids[0], repetitions - 1);
    }
  }

  lemma {:induction false} CellsOfMissingRuns(app: Id, ids: seq<Id>, repetitions: nat)
    ensures UntestedCells([], app, ids, repetitions) == |ids| * repetitions
    decreases |ids|
  {
    if ids != [] {
      CellsOfMissingRuns(app, ids[1..], repetitions);
      PaddingIsUntested(app, ids[0], repetitions);
      AddProduct(|ids| - 1, repetitions);
    }
  }

  lemma {:induction false} SummaryOfMissingRuns(as_: seq<Application>, repetitions: nat)
    ensures UntestedSummary([], as_, repetitions) == |AllCaseIds(as_)| * repetitions
    decreases |as_|
  {
    if as_ != [] {
      SummaryOfMissingRuns(as_[1..], repetitions);
      CellsOfMissingRuns(as_[0].id, as_[0].caseIds, repetitions);
      SplitProduct(|as_[0].caseIds|, |AllCaseIds(as_[1..])|, repetitions);
    }
  }

  /** Untested outcomes of one run over all applications. */
  function UntestedRun(ms: seq<Measurement>, as_: seq<Application>): nat
    decreases |as_|
  {
    if as_ == [] then 0 else UntestedIn(as_[0].caseIds, PredictionsFor(ms, as_[0].id)) + UntestedRun(ms, as_[1..])
  }

  lemma {:induction false} SummaryByRun(runs: seq<seq<Measurement>>, as_: seq<Application>, repetitions: nat)
    requires 0 < |runs| <= repetitions
    ensures UntestedSummary(runs, as_, repetitions) == UntestedRun(runs[0], as_) + UntestedSummary(runs[1..], as_, repetitions - 1)
    decreases |as_|
  {
    if as_ != [] {
      SummaryByRun(runs, as_[1..], repetitions);
      CellsByRun(runs, as_[0].id, as_[0].caseIds, repetitions);
    }
  }

  lemma {:induction false} RunUntested(as_: seq<Application>, ms: seq<Measurement>, oracle: seq<Case>, k: nat)
    requires k <= |as_| && ExactMembership(oracle, AllCaseIds(as_)) && Distinct(AllCaseIds(as_))
    requires ScoreAll(as_[k..], ms, oracle).Some?
    ensures SumCounts(ScoreAll(as_[k..], ms, oracle).value).untested == UntestedRun(ms, as_[k..])
    decreases |as_| - k
  {
    if k < |as_| {
      var a := as_[k];
      assert as_[k..][0] == a && as_[k..][1..] == as_[k + 1..];
      CasesOfSize(oracle, as_, k);
      CaseIdsMember(as_, k);
      UntestedByEitherOrder(CasesOf(oracle, a.caseIds), a.caseIds, PredictionsFor(ms, a.id));
      RunUntested(as_, ms, oracle, k + 1);
    }
  }

  function MeasurementsOf(rs: seq<Receipt>): seq<seq<Measurement>> {
    seq(|rs|, k requires 0 <= k < |rs| => rs[k].prediction.measurements)
  }

  lemma ScoredRunUntested(m: Manifest, r: Receipt, oracle: seq<Case>)
    requires ScoreRun(m, r, oracle).Some?
    ensures ScoreRun(m, r, oracle).value.counts.untested == UntestedRun(r.prediction.measurements, m.contract.applications)
  {
    var as_ := m.contract.applications;
    assert as_[0..] == as_;
    RunUntested(as_, r.prediction.measurements, oracle, 0);
  }

  lemma {:induction false} RunsUntested(m: Manifest, rs: seq<Receipt>, oracle: seq<Case>, repetitions: nat)
    requires |rs| <= repetitions && ScoreRuns(m, rs, oracle).Some?
    ensures SumRuns(ScoreRuns(m, rs, oracle).value).untested + (repetitions - |rs|) * |AllCaseIds(m.contract.applications)|
            == UntestedSummary(MeasurementsOf(rs), m.contract.applications, repetitions)
    decreases |rs|
  {
    hide ScoreRun, UntestedSummary, UntestedRun, AllCaseIds;
    var as_ := m.contract.applications;
    if rs == [] {
      SummaryOfMissingRuns(as_, repetitions);
      assert MeasurementsOf(rs) == [];
    } else {
      RunsUntested(m, rs[1..], oracle, repetitions - 1);
      assert MeasurementsOf(rs)[1..] == MeasurementsOf(rs[1..]);
      SummaryByRun(MeasurementsOf(rs), as_, repetitions);
      ScoredRunUntested(m, rs[0], oracle);
      var runs := ScoreRuns(m, rs, oracle).value;
      assert runs[1..] == ScoreRuns(m, rs[1..], oracle).value;
    }
  }

  /**
   The summary counts untested work the same way twice: run by run from the scores, and cell by
   cell from the padded outcome lists.
   */
  lemma CellsAgreeWithCounts(m: Manifest, rs: seq<Receipt>, oracle: seq<Case>)
    requires Summarize(m, rs, oracle).Some?
    ensures Summarize(m, rs, oracle).value.counts.untested ==
            UntestedSummary(MeasurementsOf(rs), m.contract.applications, m.repetitions)
  {
    hide ScoreRuns, SumRuns, AllCaseIds, UntestedSummary;
    RunsTotal(m, rs, oracle);
    RunsUntested(m, rs, oracle, m.repetitions);
  }

  // ---------------------------------------------------------------- whose predictions and cases are scored

  /** An application is scored on its own measurement's predictions, and on none when it was not measured. */
  lemma {:induction false} PredictionsAreItsOwn(ms: seq<Measurement>, id: Id)
    requires Distinct(MeasuredIds(ms))
    ensures forall k | 0 <= k < |ms| && ms[k].applicationId == id :: PredictionsFor(ms, id) == ms[k].predictions
    ensures (forall k | 0 <= k < |ms| :: ms[k].applicationId != id) ==> PredictionsFor(ms, id) == []
    decreases |ms|
  {
    if ms != [] {
      var rest := ms[1..];
      assert MeasuredIds(rest) == MeasuredIds(ms)[1..];
      PredictionsAreItsOwn(rest, id);
      assert forall k | 0 < k < |ms| :: ms[k] == rest[k - 1];
      forall k | 0 < k < |ms| ensures ms[k].applicationId != ms[0].applicationId {
        assert MeasuredIds(ms)[0] != MeasuredIds(ms)[k];
      }
    }
  }

  /** The cases of an application are the oracle's own entries for its ids. */
  lemma {:induction false} CasesAreTheOracles(oracle: seq<Case>, ids: seq<Id>, c: Case)
    ensures c in CasesOf(oracle, ids) <==> c in oracle && c.id in ids
    decreases |oracle|
  {
    if oracle != [] {
      CasesAreTheOracles(oracle[1..], ids, c);
      assert oracle == [oracle[0]] + oracle[1..];
    }
  }

  lemma {:induction false} AllScoredIff(m: Manifest, rs: seq<Receipt>, oracle: seq<Case>)
    ensures ScoreRuns(m, rs, oracle).Some? <==>
            forall k | 0 <= k < |rs| :: rs[k].manifestDigest.content == m && Reveal(m.contract, rs[k].prediction, oracle).Some?
    decreases |rs|
  {
    hide Reveal;
    if rs != [] {
      AllScoredIff(m, rs[1..], oracle);
      assert forall k | 0 < k < |rs| :: rs[k] == rs[1..][k - 1];
    }
  }

  /** A summary is made if and only if there are no more runs than expected, under distinct ids, each bound to this manifest and revealed by this oracle. */
  lemma SummarySucceedsIff(m: Manifest, rs: seq<Receipt>, oracle: seq<Case>)
    ensures Summarize(m, rs, oracle).Some? <==>
            && |rs| <= m.repetitions && (forall j, k | 0 <= j < k < |rs| :: rs[j].runId != rs[k].runId)
            && (forall k | 0 <= k < |rs| :: rs[k].manifestDigest.content == m && Reveal(m.contract, rs[k].prediction, oracle).Some?)
  {
    hide Reveal, ScoreRuns, SummaryOf;
    AllScoredIff(m, rs, oracle);
    assert forall k | 0 <= k < |rs| :: RunIds(rs)[k] == rs[k].runId;
  }

  // ---------------------------------------------------------------- what the counts mean

  /** The class of a case, read off the truth and the predictions as a set. */
  predicate Belongs(c: Case, ps: seq<Prediction>, k: Classification) {
    match k
    case TruePositive => c.truth == Vulnerable && Prediction(c.id, Finding) in ps
    case FalseNegative => c.truth == Vulnerable && Prediction(c.id, NoFinding) in ps
    case FalsePositive => c.truth == Secure && Prediction(c.id, Finding) in ps
    case TrueNegative => c.truth == Secure && Prediction(c.id, NoFinding) in ps
    case CorrectAbstention => c.truth == Uncertain && Prediction(c.id, Abstain) in ps
    case UnsafeConclusion => c.truth == Uncertain && (Prediction(c.id, Finding) in ps || Prediction(c.id, NoFinding) in ps)
    case AbstainedKnownTruth => c.truth != Uncertain && Prediction(c.id, Abstain) in ps
    case NotTested => Prediction(c.id, Finding) !in ps && Prediction(c.id, NoFinding) !in ps && Prediction(c.id, Abstain) !in ps
  }

  function Members(cs: seq<Case>, ps: seq<Prediction>, k: Classification): set<Case> {
    set c | c in cs && Belongs(c, ps, k)
  }

  function Get(c: Counts, k: Classification): nat {
    match k
    case TruePositive => c.truePositives
    case FalsePositive => c.falsePositives
    case TrueNegative => c.trueNegatives
    case FalseNegative => c.falseNegatives
    case CorrectAbstention => c.correctAbstentions
    case UnsafeConclusion => c.unsafeUncertainConclusions
    case AbstainedKnownTruth => c.abstainedKnownTruth
    case NotTested => c.untested
  }

  lemma {:induction false} OutcomeIsPredicted(ps: seq<Prediction>, id: Id, o: Outcome)
    requires Distinct(PredictionIds(ps)) && o != Untested
    ensures OutcomeOf(ps, id) == o <==> Prediction(id, o) in ps
    decreases |ps|
  {
    if ps != [] {
      var rest := ps[1..];
      assert PredictionIds(rest) == PredictionIds(ps)[1..];
      assert ps == [ps[0]] + rest;
      OutcomeIsPredicted(rest, id, o);
      forall j | 0 <= j < |rest| ensures rest[j].id != ps[0].id {
        assert PredictionIds(ps)[0] != PredictionIds(ps)[j + 1];
      }
    }
  }

  lemma ClassIsBelonging(c: Case, ps: seq<Prediction>, k: Classification)
    requires Distinct(PredictionIds(ps))
    ensures Classify(c.truth, OutcomeOf(ps, c.id)) == k <==> Belongs(c, ps, k)
  {
    hide OutcomeOf, Distinct;
    OutcomeIsPredicted(ps, c.id, Finding);
    OutcomeIsPredicted(ps, c.id, NoFinding);
    OutcomeIsPredicted(ps, c.id, Abstain);
  }

  lemma FirstMember(cs: seq<Case>, ps: seq<Prediction>, k: Classification)
    requires cs != [] && Distinct(CaseIds(cs))
    ensures |Members(cs, ps, k)| == (if Belongs(cs[0], ps, k) then 1 else 0) + |Members(cs[1..], ps, k)|
    ensures Distinct(CaseIds(cs[1..]))
  {
    hide Belongs;
    var rest := cs[1..];
    assert cs == [cs[0]] + rest;
    assert CaseIds(rest) == CaseIds(cs)[1..];
    forall j | 0 <= j < |rest| ensures rest[j] != cs[0] {
      assert CaseIds(cs)[0] != CaseIds(cs)[j + 1];
    }
    assert cs[0] !in Members(rest, ps, k);
    if Belongs(cs[0], ps, k) {
      assert Members(cs, ps, k) == Members(rest, ps, k) + {cs[0]};
    } else {
      assert Members(cs, ps, k) == Members(rest, ps, k);
    }
  }

  lemma {:induction false} CountIsMembers(cs: seq<Case>, ps: seq<Prediction>, k: Classification)
    requires Distinct(CaseIds(cs)) && Distinct(PredictionIds(ps))
    ensures CountOf(CellsOf(cs, ps), k) == |Members(cs, ps, k)|
    decreases |cs|
  {
    if cs == [] {
      assert Members(cs, ps, k) == {};
    } else {
      hide Belongs, Members, OutcomeOf, Classify, Distinct;
      FirstMember(cs, ps, k);
      ClassIsBelonging(cs[0], ps, k);
      CountIsMembers(cs[1..], ps, k);
      assert CellsOf(cs, ps)[1..] == CellsOf(cs[1..], ps);
    }
  }

  /** Every count of an application's score is the number of its cases in that class. */
  lemma ScoreMeans(cs: seq<Case>, ps: seq<Prediction>, k: Classification)
    requires Evaluate(cs, ps).Some?
    ensures Get(Evaluate(cs, ps).value.counts, k) == |Members(cs, ps, k)|
  {
    hide CountOf, CellsOf, Members, Distinct;
    CountIsMembers(cs, ps, k);
  }

  function MembersInRun(as_: seq<Application>, ms: seq<Measurement>, oracle: seq<Case>, k: Classification): nat
    decreases |as_|
  {
    if as_ == [] then 0
    else |Members(CasesOf(oracle, as_[0].caseIds), PredictionsFor(ms, as_[0].id), k)| + MembersInRun(as_[1..], ms, oracle, k)
  }

  function MembersInRuns(m: Manifest, rs: seq<Receipt>, oracle: seq<Case>, k: Classification): nat
    decreases |rs|
  {
    if rs == [] then 0
    else MembersInRun(m.contract.applications, rs[0].prediction.measurements, oracle, k) + MembersInRuns(m, rs[1..], oracle, k)
  }

  lemma GetOfPlus(a: Counts, b: Counts, k: Classification)
    ensures Get(a.Plus(b), k) == Get(a, k) + Get(b, k)
  {
  }

  lemma {:induction false} RunMeans(as_: seq<Application>, ms: seq<Measurement>, oracle: seq<Case>, k: Classification)
    requires ScoreAll(as_, ms, oracle).Some?
    ensures Get(SumCounts(ScoreAll(as_, ms, oracle).value), k) == MembersInRun(as_, ms, oracle, k)
    decreases |as_|
  {
    hide Evaluate, Get, Members, CasesOf, PredictionsFor, Counts.Plus;
    if as_ == [] {
      GetOfZero(k);
    } else {
      RunMeans(as_[1..], ms, oracle, k);
      ScoreMeans(CasesOf(oracle, as_[0].caseIds), PredictionsFor(ms, as_[0].id), k);
      var scored := ScoreAll(as_, ms, oracle).value;
      assert scored[1..] == ScoreAll(as_[1..], ms, oracle).value;
      GetOfPlus(scored[0].score.counts, SumCounts(scored[1..]), k);
    }
  }

  lemma GetOfZero(k: Classification)
    ensures Get(ZERO, k) == 0
  {
  }

  lemma ScoredRunMeans(m: Manifest, r: Receipt, oracle: seq<Case>, k: Classification)
    requires ScoreRun(m, r, oracle).Some?
    ensures Get(ScoreRun(m, r, oracle).value.counts, k) == MembersInRun(m.contract.applications, r.prediction.measurements, oracle, k)
  {
    hide ScoreAll, MembersInRun, Get, SumCounts;
    RunMeans(m.contract.applications, r.prediction.measurements, oracle, k);
  }

  lemma {:induction false} RunsMean(m: Manifest, rs: seq<Receipt>, oracle: seq<Case>, k: Classification)
    requires ScoreRuns(m, rs, oracle).Some?
    ensures Get(SumRuns(ScoreRuns(m, rs, oracle).value), k) == MembersInRuns(m, rs, oracle, k)
    decreases |rs|
  {
    hide ScoreRun, Get, MembersInRun, Counts.Plus;
    if rs == [] {
      GetOfZero(k);
    } else {
      RunsMean(m, rs[1..], oracle, k);
      ScoredRunMeans(m, rs[0], oracle, k);
      var runs := ScoreRuns(m, rs, oracle).value;
      assert runs[1..] == ScoreRuns(m, rs[1..], oracle).value;
      GetOfPlus(runs[0].counts, SumRuns(runs[1..]), k);
    }
  }

  /**
   Each of the eight counts of a summary is the number of cases in that class, over all executed
   runs and applications; a missing run adds every case to the untested ones and nothing else.
   */
  lemma SummaryMeans(m: Manifest, rs: seq<Receipt>, oracle: seq<Case>, k: Classification)
    requires Summarize(m, rs, oracle).Some?
    ensures Get(Summarize(m, rs, oracle).value.counts, k) ==
            MembersInRuns(m, rs, oracle, k)
            + (if k == NotTested then (m.repetitions - |rs|) * |AllCaseIds(m.contract.applications)| else 0)
  {
    hide ScoreRuns, SumRuns, AllCaseIds, MembersInRuns, Counts.Plus;
    RunsMean(m, rs, oracle, k);
    var missing := MissingCounts(m.repetitions - |rs|, |AllCaseIds(m.contract.applications)|);
    GetOfPlus(missing, SumRuns(ScoreRuns(m, rs, oracle).value), k);
    assert Get(missing, k) == if k == NotTested then (m.repetitions - |rs|) * |AllCaseIds(m.contract.applications)| else 0;
  }
}
