/** The evaluator that runs a task's checks, and the validator of its results. */
module Evaluation {
  import opened Wrappers

  // ----- Text -----

  predicate IsWhitespace(c: char) { c == ' ' || '\t' <= c <= '\r' }

  function TrimStart(s: string): string { if s != "" && IsWhitespace(s[0]) then TrimStart(s[1..]) else s }

  function TrimEnd(s: string): string {
    if s != "" && IsWhitespace(s[|s| - 1]) then TrimEnd(s[..|s| - 1]) else s
  }

  function Trim(s: string): string { TrimEnd(TrimStart(s)) }

  const NUL: char := '\0'

  // ----- Data -----

  /** The scripts that must all pass. */
  type EvaluationSpec = seq<string>

  datatype EvaluationStatus = Completed | NotConfigured | Interrupted | TimedOut

  datatype CheckStatus = CheckPassed | CheckFailed | CheckInterrupted | CheckTimedOut | CheckNotRun

  datatype ProcessStatus = ProcessSucceeded | ProcessFailed | ProcessInterrupted | ProcessTimedOut

  /** What is recorded of a process that ran. */
  datatype Action = Action(exitCode: Option<int>, signal: Option<int>)

  datatype CheckResult = CheckResult(command: string, status: CheckStatus, action: Option<Action>)

  datatype Evaluation = Evaluation(spec: EvaluationSpec, status: EvaluationStatus, success: bool, checks: seq<CheckResult>)

  predicate SpecValid(spec: EvaluationSpec) {
    forall i :: 0 <= i < |spec| ==> Trim(spec[i]) != "" && NUL !in spec[i]
  }

  predicate AllPassed(checks: seq<CheckResult>) {
    forall i :: 0 <= i < |checks| ==> checks[i].status == CheckPassed
  }

  predicate CheckConsistent(status: EvaluationStatus, c: CheckResult, script: string) {
    && c.command == script
    && (c.status == CheckNotRun <==> c.action == None)
    && (c.status == CheckPassed ==> c.action.Some? && c.action.value == Action(Some(0), None))
    && (status == Completed ==> c.status == CheckPassed || c.status == CheckFailed)
  }

  /** `Evaluation::validate`. */
  predicate Validates(e: Evaluation) {
    && SpecValid(e.spec)
    && (e.success <==> e.status == Completed && e.checks != [] && AllPassed(e.checks))
    && |e.checks| == |e.spec|
    && (e.status == Completed ==> e.checks != []) && (e.status == NotConfigured ==> e.checks == [])
    && forall i :: 0 <= i < |e.checks| ==> CheckConsistent(e.status, e.checks[i], e.spec[i])
  }

  // ----- Evaluating -----

  /** A check's process: how it ended and what was recorded of it. */
  datatype ProcessResult = ProcessResult(status: ProcessStatus, action: Action)

  /** The process runner reports success exactly for exit code zero without a signal. */
  predicate Truthful(r: ProcessResult) {
    r.status == ProcessSucceeded ==> r.action == Action(Some(0), None)
  }

  function InitialStatus(execution: ProcessStatus, spec: EvaluationSpec): EvaluationStatus {
    if execution == ProcessInterrupted then Interrupted
    else if execution == ProcessTimedOut then TimedOut
    else if spec == [] then NotConfigured
    else Completed
  }

  /** One round of the loop: the status after it. */
  function StatusAfter(status: EvaluationStatus, cancelled: bool, r: ProcessResult): EvaluationStatus {
    if cancelled then Interrupted
    else if status != Completed then status
    else
      match r.status
      case ProcessInterrupted => Interrupted
      case ProcessTimedOut => TimedOut
      case _ => Completed
  }

  function CheckOf(status: EvaluationStatus, cancelled: bool, script: string, r: ProcessResult): CheckResult {
    if cancelled || status != Completed then
      CheckResult(script, CheckNotRun, None)
    else
      var check :=
        match r.status
        case ProcessSucceeded => CheckPassed
        case ProcessFailed => CheckFailed
        case ProcessInterrupted => CheckInterrupted
        case ProcessTimedOut => CheckTimedOut;
      CheckResult(script, check, Some(r.action))
  }

  /** What the environment does: how the checked execution ended, and for each check
    * whether cancellation was seen before it and how its process would end. */
  datatype Environment = Environment(execution: ProcessStatus, cancelled: seq<bool>, results: seq<ProcessResult>)

  predicate Fits(spec: EvaluationSpec, env: Environment) {
    && |env.cancelled| == |spec| == |env.results|
    && forall i :: 0 <= i < |env.results| ==> Truthful(env.results[i])
  }

  function StatusAt(spec: EvaluationSpec, env: Environment, i: nat): EvaluationStatus
    requires Fits(spec, env) && i <= |spec|
  {
    if i == 0 then InitialStatus(env.execution, spec)
    else StatusAfter(StatusAt(spec, env, i - 1), env.cancelled[i - 1], env.results[i - 1])
  }

  function ChecksTo(spec: EvaluationSpec, env: Environment, i: nat): (checks: seq<CheckResult>)
    requires Fits(spec, env) && i <= |spec|
    ensures |checks| == i
  {
    if i == 0 then []
    else
      ChecksTo(spec, env, i - 1)
      + [CheckOf(StatusAt(spec, env, i - 1), env.cancelled[i - 1], spec[i - 1], env.results[i - 1])]
  }

  function Evaluated(spec: EvaluationSpec, env: Environment): Evaluation
    requires Fits(spec, env)
  {
    var status, checks := StatusAt(spec, env, |spec|), ChecksTo(spec, env, |spec|);
    Evaluation(spec, status, status == Completed && checks != [] && AllPassed(checks), checks)
  }

  /** `CommandEvaluator::evaluate`. */
  method Evaluate(spec: EvaluationSpec, env: Environment) returns (r: Option<Evaluation>)
    requires Fits(spec, env)
    ensures r == if SpecValid(spec) then Some(Evaluated(spec, env)) else None
  {
    if !SpecValid(spec) {
      return None;
    }
    var status := InitialStatus(env.execution, spec);
    var checks: seq<CheckResult> := [];
    for index := 0 to |spec|
      invariant status == StatusAt(spec, env, index) && checks == ChecksTo(spec, env, index)
    {
      var script := spec[index];
      if env.cancelled[index] {
        status := Interrupted;
      }
      var check: CheckStatus;
      var action: Option<Action>;
      if status != Completed {
        check, action := CheckNotRun, None;
      } else {
        var result := env.results[index];
        action := Some(result.action);
        match result.status {
          case ProcessSucceeded => check := CheckPassed;
          case ProcessFailed => check := CheckFailed;
          case ProcessInterrupted =>
            status := Interrupted;
            check := CheckInterrupted;
          case ProcessTimedOut =>
            status := TimedOut;
            check := CheckTimedOut;
        }
      }
      checks := checks + [CheckResult(script, check, action)];
    }
    var success := status == Completed && checks != [] && AllPassed(checks);
    return Some(Evaluation(spec, status, success, checks));
  }

  // ----- What every evaluation looks like -----

  predicate Ran(c: CheckResult) { c.status == CheckPassed || c.status == CheckFailed }

  /** Checks that ran to an end, then at most one that was cut short, then none that ran. */
  predicate Shaped(checks: seq<CheckResult>, k: nat) {
    && k <= |checks| && (forall i :: 0 <= i < k ==> Ran(checks[i]))
    && (k < |checks| ==> !Ran(checks[k]))
    && (forall i :: k < i < |checks| ==> checks[i].status == CheckNotRun)
  }

  /** The number of checks that ran to an end. */
  function Finished(spec: EvaluationSpec, env: Environment, i: nat): (k: nat)
    requires Fits(spec, env) && i <= |spec|
    ensures k <= i
  {
    if i == 0 then 0
    else if StatusAt(spec, env, i) == Completed then i
    else Finished(spec, env, i - 1)
  }

  lemma {:induction false} ChecksAreShaped(spec: EvaluationSpec, env: Environment, i: nat)
    requires Fits(spec, env) && i <= |spec|
    ensures Shaped(ChecksTo(spec, env, i), Finished(spec, env, i))
    ensures StatusAt(spec, env, i) == Completed ==> Finished(spec, env, i) == i
    ensures StatusAt(spec, env, i) != Completed && i > 0 ==> Finished(spec, env, i) < i
    decreases i
  {
    if i > 0 {
      ChecksAreShaped(spec, env, i - 1);
    }
  }

  lemma {:induction false} ChecksAreConsistent(spec: EvaluationSpec, env: Environment, i: nat, j: nat)
    requires Fits(spec, env) && j < i <= |spec|
    ensures
      var c := ChecksTo(spec, env, i)[j];
      && c.command == spec[j] && (c.status == CheckNotRun <==> c.action == None)
      && (c.status == CheckPassed ==> c.action == Some(Action(Some(0), None)))
    decreases i
  {
    if j < i - 1 {
      ChecksAreConsistent(spec, env, i - 1, j);
    } else {
      assert Truthful(env.results[j]);
    }
  }

  lemma {:induction false} NotConfiguredIsEmpty(spec: EvaluationSpec, env: Environment, i: nat)
    requires Fits(spec, env) && i <= |spec|
    ensures StatusAt(spec, env, i) == NotConfigured ==> spec == []
    decreases i
  {
    if i > 0 {
      NotConfiguredIsEmpty(spec, env, i - 1);
    }
  }

  /** Every evaluation the evaluator builds passes the validator, whatever the processes
    * and the cancellation did. */
  lemma EvaluationsValidate(spec: EvaluationSpec, env: Environment)
    requires Fits(spec, env) && SpecValid(spec)
    ensures Validates(Evaluated(spec, env))
  {
    var e := Evaluated(spec, env);
    ChecksAreShaped(spec, env, |spec|);
    NotConfiguredIsEmpty(spec, env, |spec|);
    forall i | 0 <= i < |e.checks| ensures CheckConsistent(e.status, e.checks[i], e.spec[i]) {
      ChecksAreConsistent(spec, env, |spec|, i);
      assert e.status == Completed ==> Ran(e.checks[i]);
    }
  }

  /** The checks have their shape, and the evaluation is complete exactly when there are
    * checks and all of them ran to an end. */
  lemma EvaluationsAreShaped(spec: EvaluationSpec, env: Environment)
    requires Fits(spec, env)
    ensures
      var e := Evaluated(spec, env);
      && Shaped(e.checks, Finished(spec, env, |spec|))
      && (e.status == Completed <==> e.checks != [] && forall i :: 0 <= i < |e.checks| ==> Ran(e.checks[i]))
      && (e.success <==> e.checks != [] && AllPassed(e.checks))
  {
    var e := Evaluated(spec, env);
    var k := Finished(spec, env, |spec|);
    ChecksAreShaped(spec, env, |spec|);
    if k < |spec| {
      assert !Ran(e.checks[k]);
    }
    assert AllPassed(e.checks) ==> forall i :: 0 <= i < |e.checks| ==> Ran(e.checks[i]);
  }

  // ----- What each check and the whole come to -----

  predicate RanOut(status: ProcessStatus) { status == ProcessSucceeded || status == ProcessFailed }

  /** The execution and the first `i` checks ended by themselves, and nobody cancelled. */
  predicate GoesOn(env: Environment, i: nat)
    requires i <= |env.cancelled| == |env.results|
  {
    RanOut(env.execution) && forall j :: 0 <= j < i ==> !env.cancelled[j] && RanOut(env.results[j].status)
  }

  predicate Started(env: Environment, i: nat)
    requires i < |env.cancelled| == |env.results|
  {
    GoesOn(env, i) && !env.cancelled[i]
  }

  /** The execution, or one of the first `i` checks once started, ended as `status`. */
  predicate EndedAs(env: Environment, i: nat, status: ProcessStatus)
    requires i <= |env.cancelled| == |env.results|
  {
    env.execution == status || exists j :: 0 <= j < i && Started(env, j) && env.results[j].status == status
  }

  predicate CancelledBefore(env: Environment, i: nat)
    requires i <= |env.cancelled|
  {
    exists j :: 0 <= j < i && env.cancelled[j]
  }

  lemma {:induction false} CompletedMeans(spec: EvaluationSpec, env: Environment, i: nat)
    requires Fits(spec, env) && i <= |spec|
    ensures StatusAt(spec, env, i) == Completed <==> spec != [] && GoesOn(env, i)
    ensures StatusAt(spec, env, i) == NotConfigured <==> spec == [] && RanOut(env.execution)
  {
    if i > 0 {
      CompletedMeans(spec, env, i - 1);
    }
  }

  lemma {:induction false} InterruptedMeans(spec: EvaluationSpec, env: Environment, i: nat)
    requires Fits(spec, env) && i <= |spec|
    ensures StatusAt(spec, env, i) == Interrupted <==> CancelledBefore(env, i) || EndedAs(env, i, ProcessInterrupted)
  {
    if i > 0 {
      InterruptedMeans(spec, env, i - 1);
      CompletedMeans(spec, env, i - 1);
      OneMoreCancelled(env, i);
      OneMoreEnded(env, i, ProcessInterrupted);
    }
  }

  lemma {:induction false} TimedOutMeans(spec: EvaluationSpec, env: Environment, i: nat)
    requires Fits(spec, env) && i <= |spec|
    ensures StatusAt(spec, env, i) == TimedOut <==> !CancelledBefore(env, i) && EndedAs(env, i, ProcessTimedOut)
  {
    if i > 0 {
      TimedOutMeans(spec, env, i - 1);
      CompletedMeans(spec, env, i - 1);
      OneMoreCancelled(env, i);
      OneMoreEnded(env, i, ProcessTimedOut);
    }
  }

  lemma OneMoreCancelled(env: Environment, i: nat)
    requires 0 < i <= |env.cancelled|
    ensures CancelledBefore(env, i) <==> CancelledBefore(env, i - 1) || env.cancelled[i - 1]
  {
  }

  lemma OneMoreEnded(env: Environment, i: nat, status: ProcessStatus)
    requires 0 < i <= |env.cancelled| == |env.results|
    ensures EndedAs(env, i, status)
      <==> EndedAs(env, i - 1, status) || (Started(env, i - 1) && env.results[i - 1].status == status)
  {
    if EndedAs(env, i - 1, status) && env.execution != status {
      var j :| 0 <= j < i - 1 && Started(env, j) && env.results[j].status == status;
      assert j < i;
    }
  }

  lemma {:induction false} CheckAt(spec: EvaluationSpec, env: Environment, i: nat, j: nat)
    requires Fits(spec, env) && j < i <= |spec|
    ensures ChecksTo(spec, env, i)[j] == CheckOf(StatusAt(spec, env, j), env.cancelled[j], spec[j], env.results[j])
    decreases i
  {
    if j < i - 1 {
      CheckAt(spec, env, i - 1, j);
    }
  }

  /** Each check is recorded as its own process ended if it was started, and as not run if
    * it was not. */
  lemma CheckMeans(spec: EvaluationSpec, env: Environment, i: nat)
    requires Fits(spec, env) && i < |spec|
    ensures
      var c, ended := Evaluated(spec, env).checks[i], env.results[i].status;
      && c.command == spec[i]
      && (c.status == CheckPassed <==> Started(env, i) && ended == ProcessSucceeded)
      && (c.status == CheckFailed <==> Started(env, i) && ended == ProcessFailed)
      && (c.status == CheckInterrupted <==> Started(env, i) && ended == ProcessInterrupted)
      && (c.status == CheckTimedOut <==> Started(env, i) && ended == ProcessTimedOut)
      && c.action == if Started(env, i) then Some(env.results[i].action) else None
  {
    CheckAt(spec, env, |spec|, i);
    CompletedMeans(spec, env, i);
  }

  /** The whole is interrupted if it was cancelled before some check or a process was
    * interrupted; timed out if, without that, a process timed out; and a success exactly
    * when there are checks, each was started and each process succeeded. */
  lemma EvaluationMeans(spec: EvaluationSpec, env: Environment)
    requires Fits(spec, env)
    ensures
      var e := Evaluated(spec, env);
      && e.spec == spec && |e.checks| == |spec|
      && (e.status == NotConfigured <==> spec == [] && RanOut(env.execution))
      && (e.status == Interrupted <==> CancelledBefore(env, |spec|) || EndedAs(env, |spec|, ProcessInterrupted))
      && (e.status == TimedOut <==> !CancelledBefore(env, |spec|) && EndedAs(env, |spec|, ProcessTimedOut))
      && (e.success <==>
            spec != [] && forall i :: 0 <= i < |spec| ==> Started(env, i) && env.results[i].status == ProcessSucceeded)
  {
    CompletedMeans(spec, env, |spec|);
    InterruptedMeans(spec, env, |spec|);
    TimedOutMeans(spec, env, |spec|);
    EvaluationsAreShaped(spec, env);
    var e := Evaluated(spec, env);
    forall i | 0 <= i < |spec|
      ensures e.checks[i].status == CheckPassed <==> Started(env, i) && env.results[i].status == ProcessSucceeded {
      CheckMeans(spec, env, i);
    }
  }

  // ----- What the validator accepts of a finished evaluation -----

  /** An environment in which the checks come out as given. */
  function Replay(checks: seq<CheckResult>): (env: Environment)
    requires forall i :: 0 <= i < |checks| ==> Ran(checks[i]) && checks[i].action.Some?
    ensures |env.cancelled| == |checks| == |env.results|
  {
    Environment(
      ProcessSucceeded, seq(|checks|, i => false),
      seq(|checks|, i requires 0 <= i < |checks| =>
        ProcessResult(if checks[i].status == CheckPassed then ProcessSucceeded else ProcessFailed, checks[i].action.value)))
  }

  lemma ReplayFits(e: Evaluation, i: nat)
    requires Validates(e) && (e.status == Completed || e.status == NotConfigured) && i <= |e.checks|
    ensures Fits(e.spec, Replay(e.checks)) && GoesOn(Replay(e.checks), i)
  {
    forall j | 0 <= j < |e.checks| ensures Truthful(Replay(e.checks).results[j]) {
      assert CheckConsistent(e.status, e.checks[j], e.spec[j]);
    }
  }

  lemma ReplayedOne(e: Evaluation, j: nat)
    requires Validates(e) && e.status == Completed && j < |e.checks|
    ensures CheckOf(Completed, false, e.spec[j], Replay(e.checks).results[j]) == e.checks[j]
  {
    assert CheckConsistent(e.status, e.checks[j], e.spec[j]);
  }

  lemma {:induction false} ChecksAgree(spec: EvaluationSpec, env: Environment, checks: seq<CheckResult>, i: nat)
    requires Fits(spec, env) && GoesOn(env, |spec|) && i <= |spec| == |checks|
    requires forall j :: 0 <= j < |spec| ==> checks[j] == CheckOf(Completed, false, spec[j], env.results[j])
    ensures ChecksTo(spec, env, i) == checks[..i]
  {
    if i > 0 {
      ChecksAgree(spec, env, checks, i - 1);
      CompletedMeans(spec, env, i - 1);
      assert checks[..i] == checks[..i - 1] + [checks[i - 1]];
    }
  }

  /** Of evaluations that ran to an end, or had nothing to run, the validator accepts
    * exactly those that the evaluator can build. */
  lemma ValidatorIsExact(e: Evaluation)
    requires e.status == Completed || e.status == NotConfigured
    ensures Validates(e) <==>
      SpecValid(e.spec) && exists env :: Fits(e.spec, env) && Evaluated(e.spec, env) == e
  {
    if Validates(e) {
      var env := Replay(e.checks);
      ReplayFits(e, |e.checks|);
      forall j: nat | j < |e.checks| ensures e.checks[j] == CheckOf(Completed, false, e.spec[j], env.results[j]) {
        ReplayedOne(e, j);
      }
      ChecksAgree(e.spec, env, e.checks, |e.checks|);
      CompletedMeans(e.spec, env, |e.spec|);
      assert e.checks[..|e.checks|] == e.checks;
      assert Evaluated(e.spec, env) == e;
    }
    if env :| SpecValid(e.spec) && Fits(e.spec, env) && Evaluated(e.spec, env) == e {
      EvaluationsValidate(e.spec, env);
    }
  }

  // ----- What trimming and valid scripts mean -----

  const WHITE_SPACE: set<char> := {' ', '\t', '\n', '\U{000B}', '\U{000C}', '\r'}

  /** Trimming keeps the stretch from the first character that is not white space to the
    * last one. */
  lemma TrimMeans(s: string) returns (i: nat, j: nat)
    ensures i <= j <= |s| && Trim(s) == s[i..j]
    ensures forall k :: 0 <= k < |s| && !(i <= k < j) ==> s[k] in WHITE_SPACE
    ensures i < j ==> s[i] !in WHITE_SPACE && s[j - 1] !in WHITE_SPACE
  {
    i := TrimStartMeans(s);
    var rest := s[i..];
    var n := TrimEndMeans(rest);
    j := i + n;
    forall k | j <= k < |s| ensures s[k] in WHITE_SPACE {
      assert s[k] == rest[k - i];
    }
  }

  lemma WhitespaceMeans(c: char)
    ensures IsWhitespace(c) <==> c in WHITE_SPACE
  {
  }

  lemma {:induction false} TrimStartMeans(s: string) returns (i: nat)
    ensures i <= |s| && TrimStart(s) == s[i..] && (i < |s| ==> !IsWhitespace(s[i]))
    ensures forall k :: 0 <= k < i ==> s[k] in WHITE_SPACE
  {
    if s != "" && IsWhitespace(s[0]) {
      WhitespaceMeans(s[0]);
      var n := TrimStartMeans(s[1..]);
      i := n + 1;
    } else {
      i := 0;
    }
  }

  lemma {:induction false} TrimEndMeans(s: string) returns (j: nat)
    ensures j <= |s| && TrimEnd(s) == s[..j] && (j > 0 ==> !IsWhitespace(s[j - 1]))
    ensures forall k :: j <= k < |s| ==> s[k] in WHITE_SPACE
  {
    if s != "" && IsWhitespace(s[|s| - 1]) {
      WhitespaceMeans(s[|s| - 1]);
      j := TrimEndMeans(s[..|s| - 1]);
    } else {
      j := |s|;
    }
  }

  /** A specification is valid when no script is blank and none holds a zero character. */
  lemma SpecValidMeans(spec: EvaluationSpec)
    ensures SpecValid(spec) <==>
      forall i :: 0 <= i < |spec| ==>
        '\0' !in spec[i] && exists k :: 0 <= k < |spec[i]| && spec[i][k] !in WHITE_SPACE
  {
    forall i | 0 <= i < |spec|
      ensures Trim(spec[i]) != "" <==>
        exists k :: 0 <= k < |spec[i]| && spec[i][k] !in WHITE_SPACE {
      var a, b := TrimMeans(spec[i]);
      if a < b {
        assert spec[i][a] !in WHITE_SPACE;
      }
    }
  }
}
