/** Lessons: how experiments, applications and retirement change them. */
module Lesson {
  import opened Evaluation
  import opened LessonData
  import opened Experiment
  import opened Wrappers

  // ----- Confidence -----

  const INITIAL_CONFIDENCE := 42

  /** `HeuristicConfidence::update`. */
  function UpdatedConfidence(l: LessonState, c: Conclusion): nat {
    match c
    case ContradictsHypothesis => 20
    case SupportsHypothesis =>
      if l.status != Contradicted then (if l.confidence > 78 then l.confidence else 78) else l.confidence
    case NoConclusion => l.confidence
  }

  /** `HeuristicConfidence::transfer`. */
  function TransferredConfidence(l: LessonState, distinctSuccesses: nat): nat {
    if l.status == Contradicted || l.status == Retired then l.confidence
    else if distinctSuccesses == 0 then l.confidence
    else if distinctSuccesses == 1 then 90
    else 94
  }

  // ----- Validation -----

  datatype ApplicationEvidence = ApplicationEvidence(
    contextKey: string, distinct: bool, observed: bool, success: bool, relevant: bool)

  datatype Summary = Summary(
    controlledSupports: seq<Id>, controlledContradictions: seq<Id>, applications: seq<ApplicationEvidence>)
  {
    /** Contexts are counted once each, however often they occur. */
    function DistinctSuccesses(): nat { |QualifyingContexts(applications)| }
  }

  /** A successful use of the lesson, observed in a context of its own. */
  predicate Qualifies(a: ApplicationEvidence) { a.distinct && a.observed && a.success && a.relevant }

  function QualifyingContexts(applications: seq<ApplicationEvidence>): set<string> {
    set a | a in applications && Qualifies(a) :: a.contextKey
  }

  /** `DistinctApplicationValidation::evaluate`. */
  function Decide(l: LessonState, s: Summary): Decision {
    Decision(
      && (l.status == CounterfactuallySupported || l.status == Validated)
      && s.controlledSupports != [] && s.controlledContradictions == [] && s.DistinctSuccesses() > 0,
      s.DistinctSuccesses())
  }

  /** Validated means: a supported lesson, a supporting and no contradicting controlled
    * comparison, and at least one application that meets all four conditions. */
  lemma ValidationMeans(l: LessonState, s: Summary)
    ensures Decide(l, s).validated <==>
      && (l.status == CounterfactuallySupported || l.status == Validated)
      && s.controlledSupports != [] && s.controlledContradictions == []
      && exists i :: 0 <= i < |s.applications| && Qualifies(s.applications[i])
  {
    var contexts := QualifyingContexts(s.applications);
    if contexts != {} {
      var k :| k in contexts;
      var a :| a in s.applications && Qualifies(a) && a.contextKey == k;
      var i :| 0 <= i < |s.applications| && s.applications[i] == a;
    }
    if i :| 0 <= i < |s.applications| && Qualifies(s.applications[i]) {
      assert s.applications[i].contextKey in contexts;
    }
  }

  lemma OneMoreContext(applications: seq<ApplicationEvidence>, a: ApplicationEvidence)
    ensures QualifyingContexts(applications + [a])
      == QualifyingContexts(applications) + if Qualifies(a) then {a.contextKey} else {}
  {
    assert forall b :: b in applications + [a] <==> b in applications || b == a;
  }

  /** One more application counts exactly when it qualifies and its context is new. */
  lemma ContextsCountOnce(s: Summary, a: ApplicationEvidence)
    ensures
      var more := s.(applications := s.applications + [a]);
      var counts := Qualifies(a) && forall b :: b in s.applications && Qualifies(b) ==> b.contextKey != a.contextKey;
      more.DistinctSuccesses() == s.DistinctSuccesses() + if counts then 1 else 0
  {
    var before := QualifyingContexts(s.applications);
    OneMoreContext(s.applications, a);
    if a.contextKey in before {
      var b :| b in s.applications && Qualifies(b) && b.contextKey == a.contextKey;
      assert before + {a.contextKey} == before;
    } else {
      assert forall b :: b in s.applications && Qualifies(b) ==> b.contextKey in before;
    }
  }

  // ----- Experiments -----

  /** The trials run the plan, from the state and in the environment it asks for. */
  predicate FollowsPlan(e: ExperimentRecord) {
    && |e.plan.trials| == 2 == |e.trials|
    && forall i :: 0 <= i < 2 ==>
         && e.trials[i].spec == e.plan.trials[i] && e.trials[i].startingState == e.startingState
         && e.trials[i].fingerprint == e.plan.fingerprint
  }

  predicate AlreadyApplied(l: LessonState, experimentId: Id) {
    exists i :: 0 <= i < |l.evidence| && l.evidence[i].Trial? && l.evidence[i].experimentId == experimentId
  }

  /** The experiment tests this lesson and concludes what its trials show. */
  predicate TestsLesson(l: LessonState, e: ExperimentRecord) {
    && e.lessonId == l.id && e.sourceExperience == l.sourceExperience && e.hypothesisId == l.hypothesisId
    && e.status == ExperimentCompleted && FollowsPlan(e) && Conclude(e.trials) == e.conclusion
    && MatchesAction(l.avoid, e.trials[0].spec.command) && MatchesAction(l.prefer, e.trials[1].spec.command)
  }

  predicate AcceptsExperiment(l: LessonState, e: ExperimentRecord) {
    TestsLesson(l, e) && l.status != Retired && !AlreadyApplied(l, e.id) && l.version < U32_MAX
  }

  /** The pattern is a script, and the command is that script, outer white space aside. */
  predicate Says(pattern: Option<ActionPattern>, command: string) {
    pattern.Some? && pattern.value.ShellCommand? && Trim(pattern.value.pattern) == Trim(command)
  }

  /** A trial is what some run of its specification reported, in the given place. */
  ghost predicate Reported(t: TrialResult, spec: TrialSpec, state: StateRef, fingerprint: string) {
    exists x: RunReport ::
      t == TrialResult(spec, x.experienceId, x.realityId, x.evaluation, x.outcome, state, fingerprint)
  }

  lemma ReportedMeans(t: TrialResult, spec: TrialSpec, state: StateRef, fingerprint: string)
    ensures Reported(t, spec, state, fingerprint) <==>
      t.spec == spec && t.startingState == state && t.fingerprint == fingerprint
  {
    if t.spec == spec && t.startingState == state && t.fingerprint == fingerprint {
      var x := RunReport(t.experienceId, t.realityId, t.evaluation, t.outcome, t.startingState, t.fingerprint);
      assert t == TrialResult(spec, x.experienceId, x.realityId, x.evaluation, x.outcome, state, fingerprint);
    }
  }

  /** An experiment changes a lesson exactly when it completed for this lesson, ran the
    * lesson's two scripts where and as its plan says, concludes what its trials show, has not
    * been counted before, and the lesson is active and can still count its versions. */
  lemma AcceptsExperimentExactlyWhen(l: LessonState, e: ExperimentRecord)
    ensures AcceptsExperiment(l, e) <==>
      && e.lessonId == l.id && e.sourceExperience == l.sourceExperience && e.hypothesisId == l.hypothesisId
      && e.status == ExperimentCompleted && e.conclusion == Conclude(e.trials)
      && |e.trials| == 2 && |e.plan.trials| == 2
      && Reported(e.trials[0], e.plan.trials[0], e.startingState, e.plan.fingerprint)
      && Reported(e.trials[1], e.plan.trials[1], e.startingState, e.plan.fingerprint)
      && Says(l.avoid, e.plan.trials[0].command) && Says(l.prefer, e.plan.trials[1].command)
      && (forall trialId, r :: Trial(e.id, trialId, r) !in l.evidence)
      && l.status != Retired && l.version < 4_294_967_295
  {
    if AlreadyApplied(l, e.id) {
      var i :| 0 <= i < |l.evidence| && l.evidence[i].Trial? && l.evidence[i].experimentId == e.id;
      assert Trial(e.id, l.evidence[i].trialId, l.evidence[i].relationship) in l.evidence;
    }
    if |e.trials| == 2 && |e.plan.trials| == 2 {
      ReportedMeans(e.trials[0], e.plan.trials[0], e.startingState, e.plan.fingerprint);
      ReportedMeans(e.trials[1], e.plan.trials[1], e.startingState, e.plan.fingerprint);
    }
  }

  function RelationshipOf(c: Conclusion): Relationship {
    match c
    case SupportsHypothesis => Supports
    case ContradictsHypothesis => Contradicts
    case NoConclusion => Inconclusive
  }

  function TrialEvidence(e: ExperimentRecord): (s: seq<EvidenceRef>)
    ensures |s| == |e.trials|
  {
    seq(|e.trials|, i requires 0 <= i < |e.trials| => Trial(e.id, e.trials[i].spec.id, RelationshipOf(e.conclusion)))
  }

  function AfterExperiment(l: LessonState, e: ExperimentRecord): LessonState {
    l.(confidence := UpdatedConfidence(l, e.conclusion),
       status :=
         if e.conclusion == SupportsHypothesis && l.status == Candidate then CounterfactuallySupported
         else if e.conclusion == ContradictsHypothesis then Contradicted
         else l.status,
       validation :=
         if e.conclusion == ContradictsHypothesis && l.validation.Some? then
           Some(l.validation.value.(validated := false))
         else l.validation,
       evidence := l.evidence + TrialEvidence(e),
       version := l.version + 1)
  }

  // ----- Applications -----

  datatype LessonUse = LessonUse(lessonId: Id, applied: bool, observed: bool)

  /** An experience in which lessons may have been used. */
  datatype Application = Application(experienceId: Id, outcome: Outcome, uses: seq<LessonUse>)

  predicate UsedBy(l: LessonState, a: Application) {
    exists i :: 0 <= i < |a.uses| && a.uses[i].lessonId == l.id && a.uses[i].applied && a.uses[i].observed
  }

  function ReferenceTo(a: Application): EvidenceRef {
    Experience(a.experienceId, if a.outcome == Success then Supports else Inconclusive)
  }

  /** The application says something about an active lesson. */
  predicate Concerns(l: LessonState, a: Application) { l.status != Retired && UsedBy(l, a) }

  predicate AcceptsApplication(l: LessonState, a: Application) {
    Concerns(l, a) && ReferenceTo(a) !in l.evidence && l.version < U32_MAX
  }

  /** An application counts for a lesson exactly when it applied it, that was observed, it is
    * not on record yet, and the lesson is active and can still count its versions. */
  lemma AcceptsApplicationExactlyWhen(l: LessonState, a: Application)
    ensures AcceptsApplication(l, a) <==>
      && l.status != Retired && l.version < 4_294_967_295 && LessonUse(l.id, true, true) in a.uses
      && Experience(a.experienceId, if a.outcome == Success then Supports else Inconclusive) !in l.evidence
  {
    if UsedBy(l, a) {
      var i :| 0 <= i < |a.uses| && a.uses[i].lessonId == l.id && a.uses[i].applied && a.uses[i].observed;
      assert a.uses[i] == LessonUse(l.id, true, true);
    }
  }

  function AfterApplication(l: LessonState, a: Application, s: Summary): LessonState {
    var decision := Decide(l, s);
    l.(confidence :=
         if decision.validated then TransferredConfidence(l, decision.distinctSuccessfulContexts) else l.confidence,
       status := if decision.validated then Validated else l.status,
       validation := Some(decision), evidence := l.evidence + [ReferenceTo(a)], version := l.version + 1)
  }

  // ----- Retirement -----

  function AfterRetirement(l: LessonState): LessonState { l.(status := Retired, version := l.version + 1) }

  // ----- The object -----

  class Lesson {
    const id: Id
    const sourceExperience: Id
    const hypothesisId: Id
    const contextMatch: ContextSelector
    const avoid: Option<ActionPattern>
    const prefer: Option<ActionPattern>
    var version: nat
    var status: LessonStatus
    var confidence: nat
    var evidence: seq<EvidenceRef>
    var validation: Option<Decision>

    function View(): LessonState
      reads this
    {
      LessonState(id, version, sourceExperience, hypothesisId, status, contextMatch, avoid, prefer, confidence,
                  evidence, validation)
    }

    /** `candidate`. */
    constructor (id: Id, source: Id, hypothesis: Id, selector: ContextSelector, avoid: ActionPattern,
            prefer: ActionPattern)
      ensures View() == Fresh(id, source, hypothesis, selector, avoid, prefer)
    {
      this.id := id;
      sourceExperience := source;
      hypothesisId := hypothesis;
      contextMatch := selector;
      this.avoid := Some(avoid);
      this.prefer := Some(prefer);
      version := 1;
      status := Candidate;
      confidence := INITIAL_CONFIDENCE;
      evidence := [Experience(source, Origin)];
      validation := None;
    }

    /** `apply_experiment`. */
    method ApplyExperiment(e: ExperimentRecord) returns (ok: bool)
      modifies this
      ensures ok <==> AcceptsExperiment(old(View()), e)
      ensures View() == if ok then AfterExperiment(old(View()), e) else old(View())
    {
      if e.lessonId != id || e.sourceExperience != sourceExperience || e.hypothesisId != hypothesisId {
        return false;
      }
      if e.status != ExperimentCompleted || status == Retired {
        return false;
      }
      if |e.trials| != 2 || Conclude(e.trials) != e.conclusion {
        return false;
      }
      if |e.plan.trials| != 2 || !MatchesAction(avoid, e.trials[0].spec.command)
        || !MatchesAction(prefer, e.trials[1].spec.command) || !FollowsPlan(e)
      {
        return false;
      }
      if AlreadyApplied(View(), e.id) {
        return false;
      }
      if version + 1 > U32_MAX {
        return false;
      }
      var nextVersion := version + 1;
      confidence := UpdatedConfidence(View(), e.conclusion);
      match e.conclusion {
        case SupportsHypothesis =>
          if status == Candidate {
            status := CounterfactuallySupported;
          }
        case ContradictsHypothesis =>
          status := Contradicted;
          if validation.Some? {
            validation := Some(validation.value.(validated := false));
          }
        case NoConclusion =>
      }
      evidence := evidence + TrialEvidence(e);
      version := nextVersion;
      return true;
    }

    /** `retire`. */
    method Retire() returns (ok: bool)
      modifies this
      ensures ok <==> old(status) == Retired || old(version) < U32_MAX
      ensures View() == if old(status) != Retired && ok then AfterRetirement(old(View())) else old(View())
    {
      if status == Retired {
        return true;
      }
      if version + 1 > U32_MAX {
        return false;
      }
      status := Retired;
      version := version + 1;
      return true;
    }

    /** `apply_application`. */
    method ApplyApplication(a: Application, s: Summary) returns (ok: bool)
      modifies this
      ensures ok <==> !Concerns(old(View()), a) || AcceptsApplication(old(View()), a)
      ensures View() == if AcceptsApplication(old(View()), a) then AfterApplication(old(View()), a, s) else old(View())
    {
      if status == Retired {
        return true;
      }
      if !UsedBy(View(), a) {
        return true;
      }
      var reference := ReferenceTo(a);
      if reference in evidence {
        return false;
      }
      if version + 1 > U32_MAX {
        return false;
      }
      var nextVersion := version + 1;
      var decision := Decide(View(), s);
      if decision.validated {
        confidence := TransferredConfidence(View(), decision.distinctSuccessfulContexts);
        status := Validated;
      }
      validation := Some(decision);
      evidence := evidence + [reference];
      version := nextVersion;
      return true;
    }
  }

  function Fresh(id: Id, source: Id, hypothesis: Id, selector: ContextSelector, avoid: ActionPattern,
          prefer: ActionPattern): LessonState {
    LessonState(id, 1, source, hypothesis, Candidate, selector, Some(avoid), Some(prefer), INITIAL_CONFIDENCE,
                [Experience(source, Origin)], None)
  }
}
