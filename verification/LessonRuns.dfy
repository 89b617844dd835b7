/** What every run of experiments, applications and retirement keeps true of a lesson. */
module LessonRuns {
  import opened Evaluation
  import opened LessonData
  import opened Experiment
  import opened Lesson
  import opened Wrappers

  // ----- Runs -----

  datatype Event = RunExperiment(e: ExperimentRecord) | RunApplication(a: Application, s: Summary) | Retirement

  /** A lesson and how many events of each kind have changed it. */
  datatype Ledger = Ledger(lesson: LessonState, experiments: nat, applications: nat, retirements: nat)

  function Step(r: Ledger, ev: Event): Ledger {
    var l := r.lesson;
    match ev
    case RunExperiment(e) =>
      if AcceptsExperiment(l, e) then r.(lesson := AfterExperiment(l, e), experiments := r.experiments + 1) else r
    case RunApplication(a, s) =>
      if AcceptsApplication(l, a) then r.(lesson := AfterApplication(l, a, s), applications := r.applications + 1) else r
    case Retirement =>
      if l.status != Retired && l.version < U32_MAX then
        r.(lesson := AfterRetirement(l), retirements := r.retirements + 1)
      else r
  }

  function After(l: LessonState, events: seq<Event>): Ledger {
    if events == [] then Ledger(l, 0, 0, 0) else Step(After(l, events[..|events| - 1]), events[|events| - 1])
  }

  /** As the constructor makes it. */
  predicate IsFresh(l: LessonState) {
    && l.version == 1 && l.status == Candidate && l.confidence == INITIAL_CONFIDENCE
    && l.evidence == [Experience(l.sourceExperience, Origin)] && l.validation == None
  }

  /** A new lesson is a candidate at version 1 and confidence 0.42, with its origin as its
    * only evidence and no decision yet. */
  lemma ConstructedIsFresh(id: Id, source: Id, hypothesis: Id, selector: ContextSelector, avoid: ActionPattern,
          prefer: ActionPattern)
    ensures IsFresh(Fresh(id, source, hypothesis, selector, avoid, prefer))
    ensures
      var l := Fresh(id, source, hypothesis, selector, avoid, prefer);
      && l.id == id && l.sourceExperience == source && l.hypothesisId == hypothesis && l.contextMatch == selector
      && l.avoid == Some(avoid) && l.prefer == Some(prefer) && l.version == 1 && l.status == Candidate
      && l.confidence == 42 && l.evidence == [Experience(source, Origin)] && l.validation == None
  {
  }

  /** Retirement changes the status and the version; confidence, evidence and the stored
    * decision stay on record. */
  lemma RetirementKeepsTheRecord(r: Ledger)
    ensures
      var l, now := r.lesson, Step(r, Retirement).lesson;
      && now.confidence == l.confidence && now.evidence == l.evidence && now.validation == l.validation
      && (l.status == Retired ==> now == l)
      && (l.status != Retired && l.version < 4_294_967_295 ==> now.status == Retired && now.version == l.version + 1)
  {
  }

  // ----- Status, confidence and evidence -----

  /** Some trial evidence stands in this relationship. */
  predicate HasTrial(evidence: seq<EvidenceRef>, r: Relationship) {
    exists i :: 0 <= i < |evidence| && evidence[i].Trial? && evidence[i].relationship == r
  }

  /** The status fixes the confidence, and the trial evidence fixes the status. */
  predicate StatusFits(l: LessonState) {
    var supported, contradicted := HasTrial(l.evidence, Supports), HasTrial(l.evidence, Contradicts);
    match l.status
    case Candidate => l.confidence == 42 && !supported && !contradicted
    case CounterfactuallySupported => l.confidence == 78 && supported && !contradicted
    case Validated => (l.confidence == 90 || l.confidence == 94) && supported && !contradicted
    case Contradicted => l.confidence == 20 && contradicted && (l.validation.Some? ==> !l.validation.value.validated)
    case Retired => l.confidence in {42, 78, 90, 94, 20}
  }

  lemma AddedTrials(l: LessonState, e: ExperimentRecord, r: Relationship)
    requires |e.trials| == 2
    ensures HasTrial(l.evidence + TrialEvidence(e), r) <==> HasTrial(l.evidence, r) || RelationshipOf(e.conclusion) == r
  {
    var before, added := l.evidence, TrialEvidence(e);
    var grown := before + added;
    if HasTrial(before, r) {
      var i :| 0 <= i < |before| && before[i].Trial? && before[i].relationship == r;
      assert grown[i] == before[i];
    }
    assert grown[|before|] == added[0];
    if HasTrial(grown, r) {
      var i :| 0 <= i < |grown| && grown[i].Trial? && grown[i].relationship == r;
      assert i < |before| ==> grown[i] == before[i];
      assert i >= |before| ==> grown[i] == added[i - |before|];
    }
  }

  lemma AddedApplication(l: LessonState, a: Application, r: Relationship)
    ensures HasTrial(l.evidence + [ReferenceTo(a)], r) <==> HasTrial(l.evidence, r)
  {
    var before := l.evidence;
    if HasTrial(before, r) {
      var i :| 0 <= i < |before| && before[i].Trial? && before[i].relationship == r;
      assert (before + [ReferenceTo(a)])[i] == before[i];
    }
  }

  lemma StepKeepsStatus(r: Ledger, ev: Event)
    requires StatusFits(r.lesson)
    ensures StatusFits(Step(r, ev).lesson)
  {
    var l := r.lesson;
    match ev {
      case RunExperiment(e) =>
        if AcceptsExperiment(l, e) {
          AddedTrials(l, e, Supports);
          AddedTrials(l, e, Contradicts);
        }
      case RunApplication(a, s) =>
        AddedApplication(l, a, Supports);
        AddedApplication(l, a, Contradicts);
      case Retirement =>
    }
  }

  /** In every run, status fixes confidence and trial evidence fixes status: a lesson that is
    * not retired is contradicted exactly when some trial contradicts it, a candidate exactly
    * when no trial supports or contradicts it. */
  lemma {:induction false} StatusAlwaysFits(l: LessonState, events: seq<Event>)
    requires IsFresh(l)
    ensures StatusFits(After(l, events).lesson)
    ensures
      var now := After(l, events).lesson;
      now.status != Retired ==>
        && (now.status == Contradicted <==> HasTrial(now.evidence, Contradicts))
        && (now.status == Candidate <==> !HasTrial(now.evidence, Supports) && !HasTrial(now.evidence, Contradicts))
    ensures
      var now := After(l, events).lesson;
      match now.status
      case Candidate => now.confidence == 42
      case CounterfactuallySupported => now.confidence == 78
      case Validated => now.confidence == 90 || now.confidence == 94
      case Contradicted => now.confidence == 20
      case Retired => now.confidence in {42, 78, 90, 94, 20}
  {
    if events != [] {
      var before := events[..|events| - 1];
      StatusAlwaysFits(l, before);
      StepKeepsStatus(After(l, before), events[|events| - 1]);
    }
  }

  // ----- Status and the stored decision -----

  /** A stored decision that validates stands only with a validated lesson, or one retired
    * since. */
  predicate DecisionFits(l: LessonState) {
    l.validation.Some? && l.validation.value.validated ==> l.status == Validated || l.status == Retired
  }

  lemma {:induction false} DecisionAlwaysFits(l: LessonState, events: seq<Event>)
    requires IsFresh(l)
    ensures DecisionFits(After(l, events).lesson)
  {
    if events != [] {
      DecisionAlwaysFits(l, events[..|events| - 1]);
    }
  }

  /** Validated, and by the decision that is stored. */
  predicate Agrees(l: LessonState) {
    l.status == Validated ==> l.validation.Some? && l.validation.value.validated
  }

  predicate AgreesThroughout(l: LessonState, events: seq<Event>) {
    && Agrees(After(l, events).lesson)
    && (events != [] ==> AgreesThroughout(l, events[..|events| - 1]))
  }

  /** An application to a validated lesson comes with a summary that validates. */
  predicate ComesSupported(l: LessonState, ev: Event) {
    ev.RunApplication? && AcceptsApplication(l, ev.a) && l.status == Validated ==>
      && ev.s.controlledSupports != [] && ev.s.controlledContradictions == []
      && exists i :: 0 <= i < |ev.s.applications| && Qualifies(ev.s.applications[i])
  }

  predicate AllComeSupported(l: LessonState, events: seq<Event>) {
    events != [] ==>
      var before := events[..|events| - 1];
      AllComeSupported(l, before) && ComesSupported(After(l, before).lesson, events[|events| - 1])
  }

  lemma StepAgreesExactlyWhen(r: Ledger, ev: Event)
    requires StatusFits(r.lesson) && DecisionFits(r.lesson) && Agrees(r.lesson)
    ensures Agrees(Step(r, ev).lesson) <==> ComesSupported(r.lesson, ev)
  {
    if ev.RunApplication? {
      ValidationMeans(r.lesson, ev.s);
    }
  }

  /** Whatever summaries the events carry: status and stored decision agree throughout a run
    * exactly when every application to a validated lesson comes with a supporting
    * comparison, no contradicting one, and a qualifying application. */
  lemma {:induction false} AgreesExactlyWhen(l: LessonState, events: seq<Event>)
    requires IsFresh(l)
    ensures AgreesThroughout(l, events) <==> AllComeSupported(l, events)
  {
    if events != [] {
      var before := events[..|events| - 1];
      AgreesExactlyWhen(l, before);
      StatusAlwaysFits(l, before);
      DecisionAlwaysFits(l, before);
      if AgreesThroughout(l, before) {
        AgreesImplies(l, before);
        StepAgreesExactlyWhen(After(l, before), events[|events| - 1]);
      }
    }
  }

  lemma AgreesImplies(l: LessonState, events: seq<Event>)
    requires AgreesThroughout(l, events)
    ensures Agrees(After(l, events).lesson)
  {
  }

  // A run after which the status is Validated and the stored decision is not: a supporting
  // experiment, an application that validates, then one whose summary has no support.

  const CHECK: string := ['c']
  const PASSES: string := ['p']
  const FAILS: string := ['f']
  const PLACE := StateRef([], [])

  function WitnessEvaluation(passed: bool): Evaluation {
    var status, code := if passed then CheckPassed else CheckFailed, if passed then 0 else 1;
    Evaluation([CHECK], Completed, passed, [CheckResult(CHECK, status, Some(Action(Some(code), None)))])
  }

  function WitnessSpec(passed: bool): TrialSpec {
    if passed then TrialSpec(1, ALTERNATIVE, PASSES, [ReplaceCommand(FAILS, PASSES)], [CHECK])
    else TrialSpec(0, BASELINE, FAILS, [], [CHECK])
  }

  function WitnessTrial(passed: bool): TrialResult {
    var n := if passed then 1 else 0;
    TrialResult(WitnessSpec(passed), n, n, WitnessEvaluation(passed), if passed then Success else Failure, PLACE, [])
  }

  function WitnessExperiment(): ExperimentRecord {
    var plan := Plan(false, PLACE, [], 30, [WitnessSpec(false), WitnessSpec(true)], None);
    ExperimentRecord(0, 0, 0, 0, PLACE, plan, ExperimentCompleted, [WitnessTrial(false), WitnessTrial(true)],
                     SupportsHypothesis)
  }

  function WitnessLesson(): LessonState {
    Fresh(0, 0, 0, ContextSelector(None, [], [], None, None), ShellCommand(FAILS), ShellCommand(PASSES))
  }

  function WitnessApplication(n: Id): Application { Application(n, Success, [LessonUse(0, true, true)]) }

  function WitnessSummary(): Summary { Summary([0], [], [ApplicationEvidence([], true, true, true, true)]) }

  function NoSummary(): Summary { Summary([], [], []) }

  function WitnessEvents(): seq<Event> {
    [RunExperiment(WitnessExperiment()), RunApplication(WitnessApplication(1), WitnessSummary()),
     RunApplication(WitnessApplication(2), NoSummary())]
  }

  lemma WitnessTrialIsSound(passed: bool)
    ensures TrialSound(WitnessTrial(passed))
  {
    var e := WitnessEvaluation(passed);
    assert TrimStart(CHECK) == CHECK && TrimEnd(CHECK) == CHECK;
    assert SpecValid(e.spec);
    assert AllPassed(e.checks) <==> e.checks[0].status == CheckPassed;
  }

  lemma WitnessExperimentIsAccepted()
    ensures AcceptsExperiment(WitnessLesson(), WitnessExperiment())
  {
    var e := WitnessExperiment();
    WitnessTrialIsSound(false);
    WitnessTrialIsSound(true);
    assert e.trials[0] == WitnessTrial(false) && e.trials[1] == WitnessTrial(true);
    assert FAILS != PASSES && BASELINE != ALTERNATIVE;
    assert Comparable(e.trials);
  }

  lemma OneMoreEvent(l: LessonState, events: seq<Event>, ev: Event)
    ensures After(l, events + [ev]) == Step(After(l, events), ev)
  {
    assert (events + [ev])[..|events|] == events;
  }

  lemma ThreeEvents(l: LessonState, a: Event, b: Event, c: Event, events: seq<Event>)
    requires events == (([] + [a]) + [b]) + [c]
    ensures After(l, events) == Step(Step(Step(Ledger(l, 0, 0, 0), a), b), c)
  {
    OneMoreEvent(l, [], a);
    OneMoreEvent(l, [] + [a], b);
    OneMoreEvent(l, ([] + [a]) + [b], c);
  }

  lemma WitnessDecisions(l: LessonState)
    requires l.status == CounterfactuallySupported
    ensures Decide(l, WitnessSummary()).validated && !Decide(l, NoSummary()).validated
  {
    var s := WitnessSummary();
    assert s.applications[0] in s.applications && Qualifies(s.applications[0]);
    ValidationMeans(l, s);
  }

  lemma WitnessUse(l: LessonState, n: Id)
    requires l.id == 0
    ensures UsedBy(l, WitnessApplication(n))
  {
    assert WitnessApplication(n).uses[0].lessonId == l.id;
  }

  /** The lesson after the supporting experiment, and after the application that validates. */
  lemma WitnessIsValidated() returns (second: LessonState)
    ensures
      var first := Step(Ledger(WitnessLesson(), 0, 0, 0), RunExperiment(WitnessExperiment()));
      second == Step(first, RunApplication(WitnessApplication(1), WitnessSummary())).lesson
    ensures second.id == 0 && second.status == Validated && second.version == 3
    ensures ReferenceTo(WitnessApplication(2)) !in second.evidence
  {
    var l := WitnessLesson();
    WitnessExperimentIsAccepted();
    var first := AfterExperiment(l, WitnessExperiment());
    WitnessUse(first, 1);
    WitnessDecisions(first);
    second := AfterApplication(first, WitnessApplication(1), WitnessSummary());
  }

  /** The condition of `AgreesExactlyWhen` is needed: given a summary without support, an
    * application stores a decision that does not validate and leaves the status. */
  lemma ValidatedWithoutDecision()
    ensures
      var now := After(WitnessLesson(), WitnessEvents()).lesson;
      IsFresh(WitnessLesson()) && now.status == Validated && now.validation.Some? && !now.validation.value.validated
  {
    var events, l := WitnessEvents(), WitnessLesson();
    ThreeEvents(l, events[0], events[1], events[2], events);
    var second := WitnessIsValidated();
    WitnessUse(second, 2);
  }

  // ----- The ledger -----

  predicate Balanced(r: Ledger) {
    && |r.lesson.evidence| == 1 + 2 * r.experiments + r.applications
    && r.lesson.version == 1 + r.experiments + r.applications + r.retirements <= U32_MAX
    && r.retirements == (if r.lesson.status == Retired then 1 else 0)
    && (r.lesson.status == Validated ==> r.applications > 0)
  }

  /** Evidence and version count the events that changed the lesson, and nothing else. */
  lemma {:induction false} LedgerBalances(l: LessonState, events: seq<Event>)
    requires IsFresh(l)
    ensures Balanced(After(l, events))
  {
    if events != [] {
      LedgerBalances(l, events[..|events| - 1]);
    }
  }

  /** What a lesson is about never changes. */
  predicate SameSubject(a: LessonState, b: LessonState) {
    && a.id == b.id && a.sourceExperience == b.sourceExperience && a.hypothesisId == b.hypothesisId
    && a.contextMatch == b.contextMatch && a.avoid == b.avoid && a.prefer == b.prefer
  }

  /** Evidence only grows, over any continuation of any run. */
  lemma {:induction false} EvidenceOnlyGrows(l: LessonState, events: seq<Event>)
    ensures l.evidence <= After(l, events).lesson.evidence
    ensures SameSubject(l, After(l, events).lesson)
  {
    if events != [] {
      EvidenceOnlyGrows(l, events[..|events| - 1]);
    }
  }

  // ----- Nothing counts twice -----

  function TrialCount(evidence: seq<EvidenceRef>, id: Id): nat {
    if evidence == [] then 0
    else
      var last := evidence[|evidence| - 1];
      TrialCount(evidence[..|evidence| - 1], id) + if last.Trial? && last.experimentId == id then 1 else 0
  }

  lemma TrialCountSnoc(evidence: seq<EvidenceRef>, last: EvidenceRef, id: Id)
    ensures TrialCount(evidence + [last], id)
      == TrialCount(evidence, id) + if last.Trial? && last.experimentId == id then 1 else 0
  {
    assert (evidence + [last])[..|evidence|] == evidence;
  }

  lemma TrialCountPair(evidence: seq<EvidenceRef>, e: ExperimentRecord, id: Id)
    requires |e.trials| == 2
    ensures TrialCount(evidence + TrialEvidence(e), id) == TrialCount(evidence, id) + if e.id == id then 2 else 0
  {
    var added := TrialEvidence(e);
    TrialCountSnoc(evidence, added[0], id);
    TrialCountSnoc(evidence + [added[0]], added[1], id);
    assert evidence + added == evidence + [added[0]] + [added[1]];
  }

  lemma {:induction false} NotAppliedCountsNone(l: LessonState, id: Id, k: nat)
    requires !AlreadyApplied(l, id) && k <= |l.evidence|
    ensures TrialCount(l.evidence[..k], id) == 0
  {
    if k > 0 {
      NotAppliedCountsNone(l, id, k - 1);
      assert l.evidence[..k][..k - 1] == l.evidence[..k - 1];
    }
  }

  /** Each experiment contributes exactly its two trials, once. */
  lemma {:induction false} ExperimentsCountOnce(l: LessonState, events: seq<Event>, id: Id)
    requires IsFresh(l)
    ensures TrialCount(After(l, events).lesson.evidence, id) in {0, 2}
  {
    if events == [] {
      assert l.evidence[..0] == [];
    } else {
      var before, ev := After(l, events[..|events| - 1]), events[|events| - 1];
      ExperimentsCountOnce(l, events[..|events| - 1], id);
      match ev {
        case RunExperiment(e) =>
          if AcceptsExperiment(before.lesson, e) {
            TrialCountPair(before.lesson.evidence, e, id);
            NotAppliedCountsNone(before.lesson, e.id, |before.lesson.evidence|);
            assert before.lesson.evidence[..|before.lesson.evidence|] == before.lesson.evidence;
          }
        case RunApplication(a, s) =>
          TrialCountSnoc(before.lesson.evidence, ReferenceTo(a), id);
        case Retirement =>
      }
    }
  }

  /** No experience is recorded twice in one relationship. */
  predicate ExperiencesOnce(evidence: seq<EvidenceRef>) {
    forall i, j :: 0 <= i < j < |evidence| && evidence[i].Experience? ==> evidence[i] != evidence[j]
  }

  lemma {:induction false} ApplicationsCountOnce(l: LessonState, events: seq<Event>)
    requires IsFresh(l)
    ensures ExperiencesOnce(After(l, events).lesson.evidence)
  {
    if events != [] {
      ApplicationsCountOnce(l, events[..|events| - 1]);
    }
  }

  // ----- Statuses that stay -----

  /** Retirement is final: nothing changes a retired lesson. */
  lemma {:induction false} RetiredIsFinal(l: LessonState, events: seq<Event>)
    requires l.status == Retired
    ensures After(l, events) == Ledger(l, 0, 0, 0)
  {
    if events != [] {
      RetiredIsFinal(l, events[..|events| - 1]);
    }
  }

  /** A contradicted lesson stays contradicted until it is retired, whatever supports it
    * later, and is never validated again. */
  lemma {:induction false} ContradictionStays(l: LessonState, events: seq<Event>)
    requires l.status == Contradicted && StatusFits(l)
    ensures
      var now := After(l, events).lesson;
      && (now.status == Contradicted || now.status == Retired) && now.confidence == 20
      && (now.validation.Some? ==> !now.validation.value.validated)
  {
    if events != [] {
      ContradictionStays(l, events[..|events| - 1]);
    }
  }

  // ----- From plan to lesson -----

  /** The record that running a plan to its end leaves. */
  predicate RecordOf(e: ExperimentRecord, l: LessonState, plan: Plan, runs: seq<RunResult>) {
    && e.lessonId == l.id && e.sourceExperience == l.sourceExperience && e.hypothesisId == l.hypothesisId
    && e.plan == plan && e.startingState == plan.startingState && e.status == ExperimentCompleted
    && |runs| == |plan.trials| && (forall i :: 0 <= i < |runs| ==> runs[i].RunOk?)
    && e.trials == TrialsOf(plan.trials, runs) && e.conclusion == Conclude(e.trials)
  }

  /** A completed experiment of a planned, faithful pair of runs updates the lesson it was
    * planned for, whatever else has happened to the lesson since, unless the lesson is
    * retired, has taken this experiment in, or has run out of versions. */
  lemma PlannedExperimentsAreAcceptedExactlyWhen(
    l: LessonState, events: seq<Event>, plan: Plan, runs: seq<RunResult>, e: ExperimentRecord)
    requires Tests(plan, l) && FaithfulRuns(plan, runs) && RecordOf(e, l, plan, runs)
    ensures
      var now := After(l, events).lesson;
      AcceptsExperiment(now, e) <==> now.status != Retired && !AlreadyApplied(now, e.id) && now.version < U32_MAX
    ensures e.conclusion == ByOutcomes(runs[0].report.outcome, runs[1].report.outcome)
  {
    EvidenceOnlyGrows(l, events);
    OutcomesDecide(l, plan, runs);
  }

  // ----- The object runs as the events say -----

  /** One event happens to the object. */
  method Happen(lesson: Lesson, ev: Event, ghost r: Ledger) returns (ok: bool)
    requires r.lesson == lesson.View()
    modifies lesson
    ensures lesson.View() == Step(r, ev).lesson
  {
    match ev
    case RunExperiment(e) => ok := lesson.ApplyExperiment(e);
    case RunApplication(a, s) => ok := lesson.ApplyApplication(a, s);
    case Retirement => ok := lesson.Retire();
  }

  method HappenAll(lesson: Lesson, events: seq<Event>)
    modifies lesson
    ensures lesson.View() == After(old(lesson.View()), events).lesson
  {
    ghost var start := lesson.View();
    for i := 0 to |events|
      invariant lesson.View() == After(start, events[..i]).lesson
    {
      assert events[..i + 1][..i] == events[..i];
      ghost var before := After(start, events[..i]);
      var ok := Happen(lesson, events[i], before);
    }
    assert events[..|events|] == events;
  }

  /** A lesson from its beginning on: what every run keeps holds of the object. */
  method LiveThrough(id: Id, source: Id, hypothesis: Id, selector: ContextSelector, avoid: ActionPattern,
          prefer: ActionPattern, events: seq<Event>)
    returns (lesson: Lesson)
    ensures fresh(lesson)
    ensures lesson.View() == After(Fresh(id, source, hypothesis, selector, avoid, prefer), events).lesson
    ensures StatusFits(lesson.View()) && DecisionFits(lesson.View()) && ExperiencesOnce(lesson.evidence)
    ensures forall experiment :: TrialCount(lesson.evidence, experiment) in {0, 2}
  {
    ghost var start := Fresh(id, source, hypothesis, selector, avoid, prefer);
    ConstructedIsFresh(id, source, hypothesis, selector, avoid, prefer);
    lesson := new Lesson(id, source, hypothesis, selector, avoid, prefer);
    HappenAll(lesson, events);
    StatusAlwaysFits(start, events);
    DecisionAlwaysFits(start, events);
    ApplicationsCountOnce(start, events);
    forall experiment ensures TrialCount(lesson.evidence, experiment) in {0, 2} {
      ExperimentsCountOnce(start, events, experiment);
    }
  }

  // ----- A whole experiment -----

  /** How `execute_at` ends: it makes no plan or finds another environment, a trial does not
    * finish, the lesson does not take the result, or it does. */
  datatype Ending = NotStarted | Unfinished | NotTaken | Taken

  predicate BothRan(runs: seq<RunResult>) { |runs| == 2 && runs[0].RunOk? && runs[1].RunOk? }

  predicate Finished(runs: seq<RunResult>, cancelled: seq<bool>) {
    BothRan(runs) && |cancelled| == 3 && !cancelled[2]
  }

  /** What the two outcomes say of the lesson. */
  function Verdict(runs: seq<RunResult>): Relationship
    requires BothRan(runs)
  {
    RelationshipOf(ByOutcomes(runs[0].report.outcome, runs[1].report.outcome))
  }

  /** The record of a plan whose trials all ran. */
  function CompletedRecord(id: Id, l: LessonState, plan: Plan, runs: seq<RunResult>): ExperimentRecord
    requires BothRan(runs) && |plan.trials| == 2
  {
    var trials := TrialsOf(plan.trials, runs);
    ExperimentRecord(id, l.sourceExperience, l.id, l.hypothesisId, plan.startingState, plan, ExperimentCompleted, trials,
                     Conclude(trials))
  }

  function StatusAfterVerdict(status: LessonStatus, verdict: Relationship): LessonStatus {
    match verdict
    case Contradicts => Contradicted
    case Supports => if status == Candidate then CounterfactuallySupported else status
    case Origin => status
    case Inconclusive => status
  }

  /** The lesson after an experiment it took: the two trials stand in its evidence and their
    * verdict has moved the status. */
  predicate TookTrials(now: LessonState, later: LessonState, id: Id, ids: (Id, Id), verdict: Relationship) {
    && now.status != Retired && later.version == now.version + 1
    && later.status == StatusAfterVerdict(now.status, verdict)
    && (verdict == Contradicts ==> later.confidence == 20)
    && (verdict == Supports && now.status != Contradicted ==> later.confidence >= 78)
    && later.evidence == now.evidence + [Trial(id, ids.0, verdict), Trial(id, ids.1, verdict)]
  }

  lemma RecordIsTaken(l: LessonState, events: seq<Event>, plan: Plan, runs: seq<RunResult>, e: ExperimentRecord,
          ids: (Id, Id))
    requires Tests(plan, l) && FaithfulRuns(plan, runs) && RecordOf(e, l, plan, runs)
    requires ids == (plan.trials[0].id, plan.trials[1].id) && AcceptsExperiment(After(l, events).lesson, e)
    ensures TookTrials(After(l, events).lesson, AfterExperiment(After(l, events).lesson, e), e.id, ids, Verdict(runs))
  {
    PlannedExperimentsAreAcceptedExactlyWhen(l, events, plan, runs, e);
    assert TrialEvidence(e) == [Trial(e.id, ids.0, Verdict(runs)), Trial(e.id, ids.1, Verdict(runs))];
  }

  /** The trials of a plan and `finish_experiment`, which applies the record to the lesson
    * as it is by then. */
  method RunAndFinish(lesson: Lesson, plan: Plan, id: Id, runs: seq<RunResult>, cancelled: seq<bool>,
          meanwhile: seq<Event>)
    returns (r: Ending)
    requires Tests(plan, lesson.View()) && |runs| == 2 && |cancelled| == 3 && Sticky(cancelled)
    requires BothRan(runs) ==> FaithfulRuns(plan, runs)
    modifies lesson
    ensures r != NotStarted && (r == Unfinished <==> !Finished(runs, cancelled))
    ensures
      var now := After(old(lesson.View()), meanwhile).lesson;
      && (r == NotTaken ==> now.status == Retired || AlreadyApplied(now, id) || now.version >= U32_MAX)
      && (r != Taken ==> lesson.View() == now)
      && (r == Taken ==>
            && !AlreadyApplied(now, id)
            && lesson.View() == AfterExperiment(now, CompletedRecord(id, old(lesson.View()), plan, runs))
            && TookTrials(now, lesson.View(), id, (plan.trials[0].id, plan.trials[1].id), Verdict(runs)))
  {
    ghost var before := lesson.View();
    var e := Execute(id, lesson.View(), plan, runs, cancelled);
    HappenAll(lesson, meanwhile);
    if e.status != ExperimentCompleted {
      return Unfinished;
    }
    assert runs[0].RunOk? && runs[1].RunOk?;
    assert e == CompletedRecord(id, before, plan, runs);
    PlannedExperimentsAreAcceptedExactlyWhen(before, meanwhile, plan, runs, e);
    var applied := lesson.ApplyExperiment(e);
    if !applied {
      return NotTaken;
    }
    RecordIsTaken(before, meanwhile, plan, runs, e, (plan.trials[0].id, plan.trials[1].id));
    return Taken;
  }

  /** `execute_at`: plan, for the source's state or a retest target, and compare the
    * environment with the plan's before running it. */
  method ExecuteAt(
    lesson: Lesson, source: Source, target: Option<Target>, captured: Option<string>, current: Option<string>,
    ids: (Id, Id), id: Id, runs: seq<RunResult>, cancelled: seq<bool>, meanwhile: seq<Event>)
    returns (r: Ending)
    requires ids.0 != ids.1 && |runs| == 2 && |cancelled| == 3 && Sticky(cancelled)
    requires var plan := PlanFor(source, lesson.View(), target, captured, ids);
      plan.Some? && BothRan(runs) ==> FaithfulRuns(plan.value, runs)
    modifies lesson
    ensures
      var plan := PlanFor(source, old(lesson.View()), target, captured, ids);
      r == NotStarted <==> plan.None? || current != Some(plan.value.fingerprint)
    ensures r == NotStarted ==> lesson.View() == old(lesson.View())
    ensures r != NotStarted ==> (r == Unfinished <==> !Finished(runs, cancelled))
    ensures r != NotStarted ==>
      var now := After(old(lesson.View()), meanwhile).lesson;
      && (r == NotTaken ==> now.status == Retired || AlreadyApplied(now, id) || now.version >= U32_MAX)
      && (r != Taken ==> lesson.View() == now)
      && (r == Taken ==>
            && !AlreadyApplied(now, id) && TookTrials(now, lesson.View(), id, ids, Verdict(runs))
            && var plan := PlanFor(source, old(lesson.View()), target, captured, ids).value;
               lesson.View() == AfterExperiment(now, CompletedRecord(id, old(lesson.View()), plan, runs)))
  {
    var plan := MakePlan(source, lesson.View(), target, captured, ids);
    if plan.None? || current != Some(plan.value.fingerprint) {
      return NotStarted;
    }
    r := RunAndFinish(lesson, plan.value, id, runs, cancelled, meanwhile);
  }
}
