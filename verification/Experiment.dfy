/** Paired counterfactual experiments: planning, running and concluding. */
module Experiment {
  import opened Evaluation
  import opened LessonData
  import opened Wrappers

  // ----- Data -----

  datatype Outcome = Success | Failure | Undecided | Stopped | OutOfTime

  /** `Outcome::from_evaluation`. */
  function OutcomeOf(e: Evaluation): Outcome {
    match e.status
    case NotConfigured => Undecided
    case Interrupted => Stopped
    case TimedOut => OutOfTime
    case Completed => if e.success then Success else Failure
  }

  datatype Conclusion = SupportsHypothesis | ContradictsHypothesis | NoConclusion

  datatype ExperimentStatus = ExperimentRunning | ExperimentCompleted | ExperimentInterrupted | ExperimentFailed

  datatype Mutation = ReplaceCommand(from: string, to: string)

  datatype TrialSpec = TrialSpec(
    id: Id, name: string, command: string, mutations: seq<Mutation>, evaluation: EvaluationSpec)

  datatype StateRef = StateRef(repoPath: string, gitCommit: string)

  datatype TrialResult = TrialResult(
    spec: TrialSpec, experienceId: Id, realityId: Id, evaluation: Evaluation, outcome: Outcome,
    startingState: StateRef, fingerprint: string)

  datatype Retest = Retest(context: Context, evaluation: EvaluationSpec)

  datatype Plan = Plan(
    externalReconstruction: bool, startingState: StateRef, fingerprint: string, timeoutSecs: nat,
    trials: seq<TrialSpec>, retest: Option<Retest>)

  datatype ExperimentRecord = ExperimentRecord(
    id: Id, sourceExperience: Id, lessonId: Id, hypothesisId: Id, startingState: StateRef, plan: Plan,
    status: ExperimentStatus, trials: seq<TrialResult>, conclusion: Conclusion)

  datatype Replay = Replay(script: string, timeoutSecs: nat)

  datatype Observation = Observation(observer: string, action: ActionPattern)

  /** The experience a lesson was learned from. */
  datatype Source = Source(
    id: Id, tags: seq<string>, context: Context, replay: Option<Replay>, evaluation: EvaluationSpec,
    startingState: StateRef, observed: seq<Observation>)

  const BASELINE := "baseline"
  const ALTERNATIVE := "alternative"

  // ----- Planning -----

  predicate Contains(s: string, t: string) { exists i :: 0 <= i <= |s| - |t| && StartsAt(s, t, i) }

  predicate StartsAt(s: string, t: string, i: nat)
    requires i <= |s| - |t|
  {
    s[i..i + |t|] == t
  }

  predicate Abridged(text: string) { Contains(text, "[REDACTED]") || Contains(text, "\U{2026}[truncated]") }

  /** The two trials of a plan; the identifiers are fresh. */
  function PairedTrials(ids: (Id, Id), baseline: string, alternative: string,
          evaluation: EvaluationSpec): seq<TrialSpec> {
    [TrialSpec(ids.0, BASELINE, baseline, [], evaluation),
     TrialSpec(ids.1, ALTERNATIVE, alternative, [ReplaceCommand(baseline, alternative)], evaluation)]
  }

  /** A plan that tests the lesson's actions against each other, all else equal. */
  predicate Tests(plan: Plan, l: LessonState) {
    && |plan.trials| == 2
    && var b, a := plan.trials[0], plan.trials[1];
    && b.name == BASELINE && a.name == ALTERNATIVE && b.id != a.id && b.command != a.command
    && b.mutations == [] && a.mutations == [ReplaceCommand(b.command, a.command)] && b.evaluation == a.evaluation
    && MatchesAction(l.avoid, b.command) && MatchesAction(l.prefer, a.command)
  }

  /** `from_observed_action`; `captured` is the fingerprint of the environment now. */
  function FromObservedAction(source: Source, l: LessonState, captured: Option<string>, ids: (Id, Id)): (r: Option<Plan>)
    requires ids.0 != ids.1
    ensures r.Some? ==> Tests(r.value, l)
  {
    var baseline, alternative := ScriptOf(l.avoid), ScriptOf(l.prefer);
    if baseline.None? || alternative.None? then None
    else if baseline == alternative || Trim(alternative.value) == "" || NUL in alternative.value
      || source.evaluation == [] || source.startingState.gitCommit == "unversioned"
      || Abridged(baseline.value) || Abridged(alternative.value)
      || (exists i :: 0 <= i < |source.evaluation| && Abridged(source.evaluation[i]))
      || !(exists i :: 0 <= i < |source.observed| && source.observed[i].observer == "bridge-lifecycle-v1"
                       && source.observed[i].action.MatchesShell(baseline.value)) then None
    else if captured.None? then None
    else
      Some(Plan(true, source.startingState, captured.value, 30,
                PairedTrials(ids, baseline.value, alternative.value, source.evaluation), None))
  }

  /** `from_lesson`. */
  function FromLesson(source: Source, l: LessonState, captured: Option<string>, ids: (Id, Id)): (r: Option<Plan>)
    requires ids.0 != ids.1
    ensures r.Some? ==> Tests(r.value, l) && l.status != Retired && source.id == l.sourceExperience
  {
    if source.id != l.sourceExperience || !l.contextMatch.Matches(source.context) || l.status == Retired then None
    else if "bridge-clean-start-v1" in source.tags then FromObservedAction(source, l, captured, ids)
    else if source.replay.None? || !source.context.controlled || source.evaluation == [] then None
    else
      var script, prefer := source.replay.value.script, ScriptOf(l.prefer);
      if l.avoid.None? || prefer.None? then None
      else if !l.avoid.value.MatchesShell(script) || Trim(prefer.value) == ""
        || Trim(prefer.value) == Trim(script) || NUL in prefer.value then None
      else
        Some(Plan(false, source.startingState, source.context.fingerprint, source.replay.value.timeoutSecs,
                  PairedTrials(ids, script, prefer.value, source.evaluation), None))
  }

  /** `text` holds `part` somewhere. */
  ghost predicate Holds(text: string, part: string) { exists x, y :: text == x + part + y }

  lemma ContainsMeans(text: string, part: string)
    ensures Contains(text, part) <==> Holds(text, part)
  {
    if Contains(text, part) {
      var i :| 0 <= i <= |text| - |part| && StartsAt(text, part, i);
      assert text == text[..i] + part + text[i + |part|..];
    }
    if x, y :| text == x + part + y {
      assert StartsAt(text, part, |x|);
    }
  }

  /** A text that was cut or blacked out when it was recorded. */
  ghost predicate Altered(text: string) { Holds(text, "[REDACTED]") || Holds(text, "\U{2026}[truncated]") }

  /** A lesson that says what to run instead of what, learned from `source`. */
  predicate Comparing(source: Source, l: LessonState, avoid: string, prefer: string) {
    && source.id == l.sourceExperience && l.contextMatch.Matches(source.context) && l.status != Retired
    && l.avoid == Some(ShellCommand(avoid)) && l.prefer == Some(ShellCommand(prefer))
    && Trim(prefer) != "" && '\0' !in prefer && source.evaluation != []
  }

  /** The source recorded the script it ran, under control. */
  predicate CanReplay(source: Source, avoid: string, prefer: string) {
    && source.replay.Some? && source.context.controlled
    && Trim(avoid) == Trim(source.replay.value.script) && Trim(prefer) != Trim(source.replay.value.script)
  }

  /** The source was observed from a clean start, and nothing needed was left out. */
  ghost predicate CanReconstruct(source: Source, avoid: string, prefer: string, captured: Option<string>) {
    && captured.Some? && avoid != prefer && source.startingState.gitCommit != "unversioned"
    && !Altered(avoid) && !Altered(prefer)
    && (forall i :: 0 <= i < |source.evaluation| ==> !Altered(source.evaluation[i]))
    && exists o, script ::
         && o in source.observed && o.observer == "bridge-lifecycle-v1"
         && o.action == ShellCommand(script) && Trim(script) == Trim(avoid)
  }

  lemma AbridgedMeans(text: string)
    ensures Abridged(text) <==> Altered(text)
  {
    ContainsMeans(text, "[REDACTED]");
    ContainsMeans(text, "\U{2026}[truncated]");
  }

  lemma ObservedMeans(observed: seq<Observation>, avoid: string)
    ensures
      (exists i ::
         0 <= i < |observed| && observed[i].observer == "bridge-lifecycle-v1" && observed[i].action.MatchesShell(avoid))
      <==>
      exists o, script ::
        && o in observed && o.observer == "bridge-lifecycle-v1"
        && o.action == ShellCommand(script) && Trim(script) == Trim(avoid)
  {
    if i :|
      0 <= i < |observed| && observed[i].observer == "bridge-lifecycle-v1" && observed[i].action.MatchesShell(avoid)
    {
      assert observed[i] in observed && observed[i].action == ShellCommand(observed[i].action.pattern);
    }
    if o, script :|
      && o in observed && o.observer == "bridge-lifecycle-v1"
      && o.action == ShellCommand(script) && Trim(script) == Trim(avoid)
    {
      var i :| 0 <= i < |observed| && observed[i] == o;
    }
  }

  /** When a plan is made from a recorded script, and which. */
  lemma ReplayPlannedExactlyWhen(source: Source, l: LessonState, captured: Option<string>, ids: (Id, Id),
          avoid: string, prefer: string)
    requires ids.0 != ids.1 && "bridge-clean-start-v1" !in source.tags
    requires l.avoid == Some(ShellCommand(avoid)) && l.prefer == Some(ShellCommand(prefer))
    ensures FromLesson(source, l, captured, ids)
      == if Comparing(source, l, avoid, prefer) && CanReplay(source, avoid, prefer) then
           var script := source.replay.value.script;
           Some(Plan(false, source.startingState, source.context.fingerprint, source.replay.value.timeoutSecs,
                     [TrialSpec(ids.0, "baseline", script, [], source.evaluation),
                      TrialSpec(ids.1, "alternative", prefer, [ReplaceCommand(script, prefer)], source.evaluation)], None))
         else None
  {
  }

  /** When a plan is made from an observed action, and which. */
  lemma ReconstructionPlannedExactlyWhen(source: Source, l: LessonState, captured: Option<string>, ids: (Id, Id),
          avoid: string, prefer: string)
    requires ids.0 != ids.1 && "bridge-clean-start-v1" in source.tags
    requires l.avoid == Some(ShellCommand(avoid)) && l.prefer == Some(ShellCommand(prefer))
    ensures FromLesson(source, l, captured, ids)
      == if Comparing(source, l, avoid, prefer) && CanReconstruct(source, avoid, prefer, captured) then
           Some(Plan(true, source.startingState, captured.value, 30,
                     [TrialSpec(ids.0, "baseline", avoid, [], source.evaluation),
                      TrialSpec(ids.1, "alternative", prefer, [ReplaceCommand(avoid, prefer)], source.evaluation)], None))
         else None
  {
    AbridgedMeans(avoid);
    AbridgedMeans(prefer);
    forall i | 0 <= i < |source.evaluation| ensures Abridged(source.evaluation[i]) <==> Altered(source.evaluation[i]) {
      AbridgedMeans(source.evaluation[i]);
    }
    ObservedMeans(source.observed, avoid);
  }

  /** A lesson without two scripts to compare is never planned for. */
  lemma OnlyScriptsArePlanned(source: Source, l: LessonState, captured: Option<string>, ids: (Id, Id))
    requires ids.0 != ids.1 && FromLesson(source, l, captured, ids).Some?
    ensures exists avoid, prefer :: l.avoid == Some(ShellCommand(avoid)) && l.prefer == Some(ShellCommand(prefer))
  {
    var avoid, prefer := l.avoid.value.pattern, l.prefer.value.pattern;
    assert l.avoid == Some(ShellCommand(avoid)) && l.prefer == Some(ShellCommand(prefer));
  }

  /** The same trials with another snapshot, environment and checks. */
  function Retested(plan: Plan, state: StateRef, retest: Retest): Plan {
    var trials := seq(|plan.trials|, i requires 0 <= i < |plan.trials| =>
      plan.trials[i].(evaluation := retest.evaluation));
    plan.(startingState := state, fingerprint := retest.context.fingerprint, trials := trials, retest := Some(retest))
  }

  /** What a retest asks for fits the lesson. */
  predicate RetestFits(l: LessonState, state: StateRef, retest: Retest) {
    && SpecValid(retest.evaluation) && retest.evaluation != [] && l.contextMatch.Matches(retest.context)
    && state == StateRef(retest.context.repositoryPath, retest.context.repositoryCommit)
  }

  /** `for_retest`. */
  method ForRetest(source: Source, l: LessonState, captured: Option<string>, ids: (Id, Id), state: StateRef,
          retest: Retest)
    returns (r: Option<Plan>)
    requires ids.0 != ids.1
    ensures r.Some? <==> FromLesson(source, l, captured, ids).Some? && RetestFits(l, state, retest)
    ensures r.Some? ==>
      && Tests(r.value, l) && l.status != Retired && source.id == l.sourceExperience
      && r.value == Retested(FromLesson(source, l, captured, ids).value, state, retest)
      && forall i :: 0 <= i < |r.value.trials| ==> r.value.trials[i].evaluation == retest.evaluation
  {
    var planned := FromLesson(source, l, captured, ids);
    if planned.None? {
      return None;
    }
    var plan := planned.value;
    if !SpecValid(retest.evaluation) {
      return None;
    }
    if retest.evaluation == [] || !l.contextMatch.Matches(retest.context)
      || state.repoPath != retest.context.repositoryPath || state.gitCommit != retest.context.repositoryCommit
    {
      return None;
    }
    var trials := plan.trials;
    for i := 0 to |trials|
      invariant |trials| == |plan.trials|
      invariant forall k :: 0 <= k < |trials| ==>
        trials[k] == if k < i then plan.trials[k].(evaluation := retest.evaluation) else plan.trials[k]
    {
      trials := trials[i := trials[i].(evaluation := retest.evaluation)];
    }
    assert trials == Retested(plan, state, retest).trials;
    return Some(plan.(startingState := state, fingerprint := retest.context.fingerprint, trials := trials,
                      retest := Some(retest)));
  }

  /** What an experiment is to be run on instead of the source's state; the context there
    * may fail to be captured. */
  datatype Target = Target(state: StateRef, context: Option<Context>, evaluation: EvaluationSpec)

  /** The plan that `execute_at` runs. */
  function PlanFor(source: Source, l: LessonState, target: Option<Target>, captured: Option<string>,
          ids: (Id, Id)): (r: Option<Plan>)
    requires ids.0 != ids.1
    ensures r.Some? ==> Tests(r.value, l) && r.value.trials[0].id == ids.0 && r.value.trials[1].id == ids.1
  {
    var plan := FromLesson(source, l, captured, ids);
    match target
    case None => plan
    case Some(Target(state, context, evaluation)) =>
      if context.Some? && plan.Some? && RetestFits(l, state, Retest(context.value, evaluation)) then
        Some(Retested(plan.value, state, Retest(context.value, evaluation)))
      else None
  }

  method MakePlan(source: Source, l: LessonState, target: Option<Target>, captured: Option<string>, ids: (Id, Id))
    returns (r: Option<Plan>)
    requires ids.0 != ids.1
    ensures r == PlanFor(source, l, target, captured, ids)
  {
    match target
    case None =>
      r := FromLesson(source, l, captured, ids);
    case Some(Target(state, context, evaluation)) =>
      if context.None? {
        return None;
      }
      r := ForRetest(source, l, captured, ids, state, Retest(context.value, evaluation));
  }

  /** A plan for a target is the lesson's plan moved there: the target's state, environment and
    * checks, and the two commands as they were. */
  lemma RetestPlannedExactlyWhen(source: Source, l: LessonState, target: Target, captured: Option<string>, ids: (Id, Id))
    requires ids.0 != ids.1
    ensures
      var plan, c := FromLesson(source, l, captured, ids), target.context;
      PlanFor(source, l, Some(target), captured, ids)
      == if plan.Some? && c.Some? && target.evaluation != [] && SpecValid(target.evaluation)
           && l.contextMatch.Matches(c.value)
           && target.state.repoPath == c.value.repositoryPath && target.state.gitCommit == c.value.repositoryCommit then
           var b, a := plan.value.trials[0].command, plan.value.trials[1].command;
           Some(Plan(plan.value.externalReconstruction, target.state, c.value.fingerprint, plan.value.timeoutSecs,
                     [TrialSpec(ids.0, "baseline", b, [], target.evaluation),
                      TrialSpec(ids.1, "alternative", a, [ReplaceCommand(b, a)], target.evaluation)],
                     Some(Retest(c.value, target.evaluation))))
         else None
  {
    var plan := FromLesson(source, l, captured, ids);
    if plan.Some? && target.context.Some? {
      var b, a := plan.value.trials[0], plan.value.trials[1];
      assert Retested(plan.value, target.state, Retest(target.context.value, target.evaluation)).trials
        == [b.(evaluation := target.evaluation), a.(evaluation := target.evaluation)];
    }
  }

  // ----- Concluding -----

  predicate TrialSound(t: TrialResult) {
    t.outcome == OutcomeOf(t.evaluation) && t.evaluation.spec == t.spec.evaluation && Validates(t.evaluation)
  }

  /** The guards under which two trials are compared at all. */
  predicate Comparable(trials: seq<TrialResult>) {
    && |trials| == 2
    && var b, a := trials[0], trials[1];
    && b.spec.name == BASELINE && a.spec.name == ALTERNATIVE
    && b.startingState == a.startingState && b.fingerprint == a.fingerprint
    && b.spec.evaluation == a.spec.evaluation && b.realityId != a.realityId && b.experienceId != a.experienceId
    && b.spec.id != a.spec.id && b.spec.command != a.spec.command
    && b.spec.mutations == [] && a.spec.mutations == [ReplaceCommand(b.spec.command, a.spec.command)]
    && TrialSound(b) && TrialSound(a)
  }

  function ByOutcomes(baseline: Outcome, alternative: Outcome): Conclusion {
    if baseline == Failure && alternative == Success then SupportsHypothesis
    else if baseline == Success && alternative == Failure then ContradictsHypothesis
    else NoConclusion
  }

  /** `PairedComparison::conclude`. */
  function Conclude(trials: seq<TrialResult>): Conclusion {
    if Comparable(trials) then ByOutcomes(trials[0].outcome, trials[1].outcome) else NoConclusion
  }

  // ----- When a conclusion is drawn -----

  /** The evaluator produced it for the trial's checks. */
  ghost predicate EvaluatedFor(e: Evaluation, spec: EvaluationSpec) {
    SpecValid(spec) && exists env :: Fits(spec, env) && e == Evaluated(spec, env)
  }

  /** Two trials that differ in their command alone. */
  predicate Paired(b: TrialResult, a: TrialResult) {
    && b.spec == TrialSpec(b.spec.id, "baseline", b.spec.command, [], b.spec.evaluation)
    && a.spec == TrialSpec(a.spec.id, "alternative", a.spec.command,
                           [ReplaceCommand(b.spec.command, a.spec.command)], b.spec.evaluation)
    && b.spec.command != a.spec.command && b.spec.id != a.spec.id
    && b.realityId != a.realityId && b.experienceId != a.experienceId
    && b.startingState == a.startingState && b.fingerprint == a.fingerprint
  }

  /** The trial ran all its checks, with this outcome. */
  ghost predicate RanWith(t: TrialResult, success: bool) {
    && EvaluatedFor(t.evaluation, t.spec.evaluation) && t.evaluation.spec == t.spec.evaluation
    && t.evaluation.status == Completed && t.evaluation.success == success
    && t.outcome == if success then Success else Failure
  }

  lemma SoundMeans(t: TrialResult, success: bool)
    ensures TrialSound(t) && t.outcome == (if success then Success else Failure) <==> RanWith(t, success)
  {
    if t.evaluation.status == Completed {
      ValidatorIsExact(t.evaluation);
    }
  }

  /** A conclusion is drawn from two trials that differ in their command alone, each of which
    * ran all its checks, and exactly one of which passed them: for the alternative if that is
    * the one that passed. */
  lemma DecisiveExactlyWhen(trials: seq<TrialResult>)
    ensures Conclude(trials) == SupportsHypothesis <==>
      |trials| == 2 && Paired(trials[0], trials[1]) && RanWith(trials[0], false) && RanWith(trials[1], true)
    ensures Conclude(trials) == ContradictsHypothesis <==>
      |trials| == 2 && Paired(trials[0], trials[1]) && RanWith(trials[0], true) && RanWith(trials[1], false)
  {
    if |trials| == 2 {
      SoundMeans(trials[0], false);
      SoundMeans(trials[0], true);
      SoundMeans(trials[1], false);
      SoundMeans(trials[1], true);
    }
  }

  // ----- Running -----

  datatype RunReport = RunReport(
    experienceId: Id, realityId: Id, evaluation: Evaluation, outcome: Outcome, startingState: StateRef, fingerprint: string)

  datatype RunResult = RunOk(report: RunReport) | RunError

  function TrialOf(spec: TrialSpec, run: RunReport): TrialResult {
    TrialResult(spec, run.experienceId, run.realityId, run.evaluation, run.outcome, run.startingState, run.fingerprint)
  }

  function TrialsOf(specs: seq<TrialSpec>, runs: seq<RunResult>): (ts: seq<TrialResult>)
    requires |runs| == |specs| && forall i :: 0 <= i < |runs| ==> runs[i].RunOk?
    ensures |ts| == |specs| && forall i :: 0 <= i < |ts| ==> ts[i] == TrialOf(specs[i], runs[i].report)
  {
    seq(|specs|, i requires 0 <= i < |specs| => TrialOf(specs[i], runs[i].report))
  }

  /** Cancellation is sticky. */
  predicate Sticky(cancelled: seq<bool>) {
    forall i, j :: 0 <= i < j < |cancelled| && cancelled[i] ==> cancelled[j]
  }

  /** The trials of `execute_at`.  `cancelled` is what is seen before each trial and at
    * the end, `runs` what running each trial would report. */
  method Execute(id: Id, l: LessonState, plan: Plan, runs: seq<RunResult>, cancelled: seq<bool>)
    returns (e: ExperimentRecord)
    requires |runs| == |plan.trials| && |cancelled| == |plan.trials| + 1 && Sticky(cancelled)
    ensures
      var n := |plan.trials|;
      && (e.status == ExperimentCompleted <==> !cancelled[n] && forall i :: 0 <= i < n ==> runs[i].RunOk?)
      && (e.status == ExperimentCompleted ==> e.trials == TrialsOf(plan.trials, runs) && e.conclusion == Conclude(e.trials))
      && (e.status != ExperimentCompleted ==> e.conclusion == NoConclusion)
      && e.status != ExperimentRunning && |e.trials| <= n
    ensures e.id == id && e.lessonId == l.id && e.sourceExperience == l.sourceExperience
      && e.hypothesisId == l.hypothesisId && e.startingState == plan.startingState && e.plan == plan
  {
    var n := |plan.trials|;
    e := ExperimentRecord(id, l.sourceExperience, l.id, l.hypothesisId, plan.startingState, plan,
                          ExperimentRunning, [], NoConclusion);
    var trials: seq<TrialResult> := [];
    for i := 0 to n
      invariant |trials| == i
      invariant forall k :: 0 <= k < i ==> runs[k].RunOk? && trials[k] == TrialOf(plan.trials[k], runs[k].report)
    {
      if cancelled[i] {
        return e.(status := ExperimentInterrupted, trials := trials);
      }
      if runs[i].RunError? {
        return e.(status := if cancelled[n] then ExperimentInterrupted else ExperimentFailed, trials := trials);
      }
      trials := trials + [TrialOf(plan.trials[i], runs[i].report)];
    }
    assert trials == TrialsOf(plan.trials, runs);
    if cancelled[n] {
      return e.(status := ExperimentInterrupted, trials := trials);
    }
    return e.(status := ExperimentCompleted, trials := trials, conclusion := Conclude(trials));
  }

  // ----- Plans that conclude -----

  /** A run of a trial reports the requested state, environment and checks. */
  ghost predicate Faithful(run: RunReport, spec: TrialSpec, plan: Plan) {
    && run.startingState == plan.startingState && run.fingerprint == plan.fingerprint
    && EvaluatedFor(run.evaluation, spec.evaluation) && run.outcome == OutcomeOf(run.evaluation)
  }

  /** Both trials ran faithfully, as runs of their own. */
  ghost predicate FaithfulRuns(plan: Plan, runs: seq<RunResult>) {
    && |runs| == |plan.trials| == 2 && runs[0].RunOk? && runs[1].RunOk?
    && Faithful(runs[0].report, plan.trials[0], plan) && Faithful(runs[1].report, plan.trials[1], plan)
    && runs[0].report.experienceId != runs[1].report.experienceId
    && runs[0].report.realityId != runs[1].report.realityId
  }

  lemma FaithfulTrialIsSound(run: RunReport, spec: TrialSpec, plan: Plan)
    requires Faithful(run, spec, plan)
    ensures TrialSound(TrialOf(spec, run))
  {
    var env :| Fits(spec.evaluation, env) && run.evaluation == Evaluated(spec.evaluation, env);
    EvaluationsValidate(spec.evaluation, env);
  }

  /** No equivalence guard fires: the outcome pair alone decides. */
  lemma OutcomesDecide(l: LessonState, plan: Plan, runs: seq<RunResult>)
    requires Tests(plan, l) && FaithfulRuns(plan, runs)
    ensures
      var trials := TrialsOf(plan.trials, runs);
      Comparable(trials) && Conclude(trials) == ByOutcomes(runs[0].report.outcome, runs[1].report.outcome)
  {
    FaithfulTrialIsSound(runs[0].report, plan.trials[0], plan);
    FaithfulTrialIsSound(runs[1].report, plan.trials[1], plan);
  }

  /** All checks ran to an end and all passed. */
  predicate PassedAll(checks: seq<CheckResult>) { checks != [] && AllPassed(checks) }

  /** All checks ran to an end and some failed. */
  predicate FailedSome(checks: seq<CheckResult>) {
    && (forall i :: 0 <= i < |checks| ==> Ran(checks[i]))
    && exists i :: 0 <= i < |checks| && checks[i].status == CheckFailed
  }

  lemma OutcomeMeans(spec: EvaluationSpec, env: Environment)
    requires Fits(spec, env)
    ensures
      var e := Evaluated(spec, env);
      && (OutcomeOf(e) == Success <==> PassedAll(e.checks))
      && (OutcomeOf(e) == Failure <==> FailedSome(e.checks))
  {
    var e := Evaluated(spec, env);
    EvaluationsAreShaped(spec, env);
    if e.checks != [] && !AllPassed(e.checks) && e.status == Completed {
      var i :| 0 <= i < |e.checks| && e.checks[i].status != CheckPassed;
      assert Ran(e.checks[i]);
    }
  }

  /** What the two decisive conclusions mean, check by check: one trial passed everything,
    * the other ran everything and failed something. */
  lemma ConclusionsMean(l: LessonState, plan: Plan, runs: seq<RunResult>)
    requires Tests(plan, l) && FaithfulRuns(plan, runs)
    ensures
      var c := Conclude(TrialsOf(plan.trials, runs));
      var baseline, alternative := runs[0].report.evaluation.checks, runs[1].report.evaluation.checks;
      && (c == SupportsHypothesis <==> FailedSome(baseline) && PassedAll(alternative))
      && (c == ContradictsHypothesis <==> PassedAll(baseline) && FailedSome(alternative))
  {
    OutcomesDecide(l, plan, runs);
    var spec := plan.trials[0].evaluation;
    var eb :| Fits(spec, eb) && runs[0].report.evaluation == Evaluated(spec, eb);
    var ea :| Fits(spec, ea) && runs[1].report.evaluation == Evaluated(spec, ea);
    OutcomeMeans(spec, eb);
    OutcomeMeans(spec, ea);
  }
}
