/** The bounds of one learning run: experiments and retries share a budget. */
module LearningLoop {
  import opened Evaluation
  import opened Experiment
  import opened Wrappers

  const USIZE_MAX: nat := 0xFFFF_FFFF_FFFF_FFFF

  datatype Budget = Budget(maxRealities: nat, maxAgentRuns: nat, maxDurationMs: Option<nat>)

  datatype Options = Options(enabled: bool, autoReflect: bool, retry: bool, maxRetries: nat, budget: Option<Budget>)

  function Min(a: nat, b: nat): nat { if a < b then a else b }

  /** What a run may spend: each experiment takes two executions, each retry one. */
  function Allowance(o: Options): nat {
    if o.budget.Some? then Min(o.budget.value.maxRealities, o.budget.value.maxAgentRuns) else USIZE_MAX
  }

  /** Options the run refuses. */
  predicate Refused(o: Options) {
    || (o.budget.Some? && o.budget.value.maxDurationMs.Some?)
    || o.maxRetries > 10 || (o.retry && !o.enabled)
  }

  /** What the environment answers, in the order it is asked.  `cancelled` is seen before
    * each retry and `cancelledAtEnd` after the last; `applicable` says whether a supported
    * lesson is retrieved for that retry, and `outcomes` how the retry would end. */
  datatype Answers = Answers(
    initial: Outcome, hypotheses: nat, cancelledBefore: bool,
    cancelled: seq<bool>, applicable: seq<bool>, outcomes: seq<Outcome>, cancelledAtEnd: bool)

  predicate Answered(o: Options, a: Answers) {
    |a.cancelled| == |a.applicable| == |a.outcomes| == o.maxRetries
  }

  datatype StopReason =
    NotRequested | RetriesExhausted | BudgetSpent | RunInterrupted | NoFailureLeft | NoApplicableLesson | RetrySucceeded

  /** What a run did: lessons stored, experiments run, outcomes of the retries, and why it
    * made no more of them. */
  datatype Report = Report(lessons: nat, experiments: nat, retries: seq<Outcome>, reason: StopReason)

  predicate Reflects(o: Options, a: Answers) { o.autoReflect && !a.cancelledBefore }

  /** One experiment for each hypothesis, as long as both of its trials are affordable. */
  function ExperimentsRun(o: Options, a: Answers): nat {
    if Reflects(o, a) then Min(a.hypotheses, Allowance(o) / 2) else 0
  }

  /** The outcome before retry `i`. */
  function Previous(a: Answers, i: nat): Outcome
    requires i <= |a.outcomes|
  {
    if i == 0 then a.initial else a.outcomes[i - 1]
  }

  /** Retry `i` is made once those before it have been. */
  predicate Retries(o: Options, a: Answers, i: nat)
    requires Answered(o, a)
  {
    && o.retry && i < o.maxRetries && 2 * ExperimentsRun(o, a) + i < Allowance(o)
    && !a.cancelled[i] && Previous(a, i) == Failure && a.applicable[i]
  }

  /** The retries made are the first `k`. */
  predicate StopsAt(o: Options, a: Answers, k: nat)
    requires Answered(o, a)
  {
    k <= o.maxRetries && !Retries(o, a, k) && forall i :: 0 <= i < k ==> Retries(o, a, i)
  }

  /** Why retry `k` was not made when the ones before it were: the first of these. */
  function WhyStopped(o: Options, a: Answers, k: nat): StopReason
    requires Answered(o, a) && k <= o.maxRetries
  {
    if a.cancelledAtEnd then RunInterrupted
    else if !o.retry then NotRequested
    else if k > 0 && a.outcomes[k - 1] == Success then RetrySucceeded
    else if k == o.maxRetries then RetriesExhausted
    else if 2 * ExperimentsRun(o, a) + k == Allowance(o) then BudgetSpent
    else if a.cancelled[k] then RunInterrupted
    else if Previous(a, k) != Failure then NoFailureLeft
    else NoApplicableLesson
  }

  // ----- The bounds and the stopping point, said of the budget -----

  /** The budget allows `n` executions. */
  predicate Affordable(o: Options, n: nat) {
    match o.budget
    case None => n <= 18_446_744_073_709_551_615
    case Some(b) => n <= b.maxRealities && n <= b.maxAgentRuns
  }

  lemma AffordableMeans(o: Options, n: nat)
    ensures n <= Allowance(o) <==> Affordable(o, n)
  {
  }

  /** As many experiments as there are hypotheses and the budget allows, if the run reflects. */
  lemma ExperimentsMean(o: Options, a: Answers, n: nat)
    ensures n <= ExperimentsRun(o, a) <==>
      n == 0 || (o.autoReflect && !a.cancelledBefore && n <= a.hypotheses && Affordable(o, 2 * n))
  {
    AffordableMeans(o, 2 * n);
  }

  /** There is reason for retry `i`, and it can be paid for beside `experiments`. */
  predicate Due(o: Options, a: Answers, experiments: nat, i: nat)
    requires Answered(o, a) && i < o.maxRetries
  {
    && o.retry && Affordable(o, 2 * experiments + i + 1) && !a.cancelled[i] && a.applicable[i]
    && (if i == 0 then a.initial == Failure else a.outcomes[i - 1] == Failure)
  }

  /** The retries made are those that were due up to the first that was not. */
  lemma StopsExactlyWhen(o: Options, a: Answers, k: nat)
    requires Answered(o, a)
    ensures StopsAt(o, a, k) <==>
      var e := ExperimentsRun(o, a);
      k <= o.maxRetries && (forall i: nat :: i < k ==> Due(o, a, e, i)) && (k < o.maxRetries ==> !Due(o, a, e, k))
  {
    forall i: nat | i < o.maxRetries ensures Retries(o, a, i) <==> Due(o, a, ExperimentsRun(o, a), i) {
      AffordableMeans(o, 2 * ExperimentsRun(o, a) + i + 1);
    }
  }

  /** The reason given is true of the run. */
  lemma ReasonHolds(o: Options, a: Answers, k: nat)
    requires Answered(o, a) && StopsAt(o, a, k)
    ensures
      var next := 2 * ExperimentsRun(o, a) + k + 1;
      match WhyStopped(o, a, k)
      case NotRequested => !o.retry && !a.cancelledAtEnd
      case RetrySucceeded => o.retry && k > 0 && a.outcomes[k - 1] == Success
      case RetriesExhausted => o.retry && k == o.maxRetries && (k > 0 ==> a.outcomes[k - 1] != Success)
      case BudgetSpent => k < o.maxRetries && !Affordable(o, next)
      case RunInterrupted => a.cancelledAtEnd || (k < o.maxRetries && Affordable(o, next) && a.cancelled[k])
      case NoFailureLeft =>
        && k < o.maxRetries && Affordable(o, next) && !a.cancelled[k]
        && if k == 0 then a.initial != Failure else a.outcomes[k - 1] !in {Failure, Success}
      case NoApplicableLesson =>
        && k < o.maxRetries && Affordable(o, next) && !a.cancelled[k] && !a.applicable[k]
        && if k == 0 then a.initial == Failure else a.outcomes[k - 1] == Failure
  {
    AffordableMeans(o, 2 * ExperimentsRun(o, a) + k + 1);
    if k > 0 {
      assert Retries(o, a, k - 1);
    }
  }

  /** The reflection loop of `execute_learning_run`. */
  method Reflect(hypotheses: nat, allowance: nat) returns (lessons: nat, experiments: nat, remaining: nat)
    ensures experiments == Min(hypotheses, allowance / 2)
    ensures lessons == Min(hypotheses, allowance / 2 + 1)
    ensures remaining + 2 * experiments == allowance
  {
    remaining := allowance;
    lessons, experiments := 0, 0;
    while lessons < hypotheses
      invariant lessons == experiments <= hypotheses
      invariant remaining + 2 * experiments == allowance
    {
      lessons := lessons + 1;
      if remaining < 2 {
        break;
      }
      remaining := remaining - 2;
      experiments := experiments + 1;
    }
  }

  /** The retry loop. */
  method Retry(o: Options, a: Answers, allowance: nat) returns (retries: seq<Outcome>, reason: StopReason)
    requires Answered(o, a) && o.retry && allowance + 2 * ExperimentsRun(o, a) == Allowance(o)
    ensures |retries| <= o.maxRetries && retries == a.outcomes[..|retries|] && StopsAt(o, a, |retries|)
    ensures !a.cancelledAtEnd ==> reason == WhyStopped(o, a, |retries|)
  {
    retries, reason := [], RetriesExhausted;
    var remaining: nat := allowance;
    for i := 0 to o.maxRetries
      invariant |retries| == i && retries == a.outcomes[..i] && remaining + i == allowance
      invariant reason == RetriesExhausted && (i > 0 ==> a.outcomes[i - 1] != Success)
      invariant forall k :: 0 <= k < i ==> Retries(o, a, k)
    {
      if remaining == 0 {
        reason := BudgetSpent;
        break;
      }
      var previous := if retries == [] then a.initial else retries[|retries| - 1];
      assert previous == Previous(a, i);
      if a.cancelled[i] {
        reason := RunInterrupted;
        break;
      }
      if previous != Failure {
        reason := NoFailureLeft;
        break;
      }
      if !a.applicable[i] {
        reason := NoApplicableLesson;
        break;
      }
      assert Retries(o, a, i);
      remaining := remaining - 1;
      retries := retries + [a.outcomes[i]];
      if a.outcomes[i] == Success {
        reason := RetrySucceeded;
        break;
      }
    }
  }

  /** `execute_learning_run`. */
  method ExecuteLearningRun(o: Options, a: Answers) returns (r: Option<Report>)
    requires Answered(o, a)
    ensures r.Some? <==> !Refused(o)
    ensures r.Some? ==>
      && r.value.experiments == ExperimentsRun(o, a)
      && r.value.lessons == (if Reflects(o, a) then Min(a.hypotheses, Allowance(o) / 2 + 1) else 0)
    ensures r.Some? ==>
      var k := |r.value.retries|;
      && k <= o.maxRetries && r.value.retries == a.outcomes[..k] && StopsAt(o, a, k)
      && r.value.reason == WhyStopped(o, a, k)
    ensures r.Some? ==> Affordable(o, 2 * r.value.experiments + |r.value.retries|)
    ensures r.Some? && o.autoReflect && !a.cancelledBefore ==>
      if Affordable(o, 2 * r.value.experiments + 2) then r.value.lessons == r.value.experiments == a.hypotheses
      else r.value.lessons == Min(a.hypotheses, r.value.experiments + 1)
    ensures r.None? <==>
      || (o.budget.Some? && o.budget.value.maxDurationMs.Some?)
      || o.maxRetries > 10 || (o.retry && !o.enabled)
  {
    if o.budget.Some? && o.budget.value.maxDurationMs.Some? {
      return None;
    }
    if o.maxRetries > 10 || (o.retry && !o.enabled) {
      return None;
    }
    var remaining: nat := Allowance(o);
    var lessons, experiments := 0, 0;
    if o.autoReflect && !a.cancelledBefore {
      lessons, experiments, remaining := Reflect(a.hypotheses, remaining);
    }
    var retries: seq<Outcome>, reason := [], NotRequested;
    if o.retry {
      retries, reason := Retry(o, a, remaining);
    }
    if a.cancelledAtEnd {
      reason := RunInterrupted;
    }
    assert |retries| > 0 ==> Retries(o, a, |retries| - 1);
    AffordableMeans(o, 2 * experiments + |retries|);
    AffordableMeans(o, 2 * experiments + 2);
    return Some(Report(lessons, experiments, retries, reason));
  }
}
