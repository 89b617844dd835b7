/** The data that experiments and lessons share. */
module LessonData {
  import opened Evaluation
  import opened Wrappers

  type Id = nat

  const U32_MAX: nat := 0xFFFF_FFFF

  // ----- Actions -----

  /** A file operation or custom action has no shell script. */
  datatype ActionPattern = ShellCommand(pattern: string) | OtherAction
  {
    function ShellScript(): Option<string> { if ShellCommand? then Some(pattern) else None }

    /** Full-script matching, outer whitespace aside. */
    predicate MatchesShell(script: string) { ShellCommand? && Trim(pattern) == Trim(script) }
  }

  predicate MatchesAction(p: Option<ActionPattern>, script: string) { p.Some? && p.value.MatchesShell(script) }

  function ScriptOf(p: Option<ActionPattern>): Option<string> { if p.Some? then p.value.ShellScript() else None }

  // ----- Contexts -----

  datatype Context = Context(
    repositoryPath: string, repositoryCommit: string, markers: seq<string>, tags: seq<string>,
    os: string, arch: string, fingerprint: string, controlled: bool)

  datatype ContextSelector = ContextSelector(
    repository: Option<string>, requiredMarkers: seq<string>, tags: seq<string>, os: Option<string>, arch: Option<string>)
  {
    predicate Matches(c: Context) {
      && (repository.Some? ==> repository.value == c.repositoryPath)
      && (forall m :: m in requiredMarkers ==> m in c.markers)
      && (forall t :: t in tags ==> t in c.tags)
      && (os.Some? ==> os.value == c.os) && (arch.Some? ==> arch.value == c.arch)
    }
  }

  /** `from_context`: the selector a lesson gets from the context it was learned in. */
  function FromContext(c: Context): ContextSelector {
    ContextSelector(Some(c.repositoryPath), c.markers, [], Some(c.os), Some(c.arch))
  }

  /** Such a selector asks for the same repository, system and architecture, and for the
    * markers that were there, whatever else differs. */
  lemma FromContextMeans(c: Context, d: Context)
    ensures FromContext(c).Matches(d) <==>
      && d.repositoryPath == c.repositoryPath && d.os == c.os && d.arch == c.arch
      && forall i :: 0 <= i < |c.markers| ==> c.markers[i] in d.markers
  {
  }

  /** A selector without requirements matches everything; each requirement narrows it by
    * itself alone. */
  lemma EachRequirementNarrows(s: ContextSelector, c: Context, x: string)
    ensures ContextSelector(None, [], [], None, None).Matches(c)
    ensures s.repository.None? ==>
      (s.(repository := Some(x)).Matches(c) <==> s.Matches(c) && c.repositoryPath == x)
    ensures s.(requiredMarkers := s.requiredMarkers + [x]).Matches(c) <==> s.Matches(c) && x in c.markers
    ensures s.(tags := s.tags + [x]).Matches(c) <==> s.Matches(c) && x in c.tags
    ensures s.os.None? ==> (s.(os := Some(x)).Matches(c) <==> s.Matches(c) && c.os == x)
    ensures s.arch.None? ==> (s.(arch := Some(x)).Matches(c) <==> s.Matches(c) && c.arch == x)
  {
    var marked, tagged := s.requiredMarkers + [x], s.tags + [x];
    assert forall m :: m in marked <==> m in s.requiredMarkers || m == x;
    assert forall t :: t in tagged <==> t in s.tags || t == x;
  }

  // ----- Evidence -----

  datatype LessonStatus = Candidate | CounterfactuallySupported | Validated | Contradicted | Retired

  datatype Relationship = Supports | Contradicts | Origin | Inconclusive

  datatype EvidenceRef =
    | Experience(experienceId: Id, relationship: Relationship)
    | Trial(experimentId: Id, trialId: Id, relationship: Relationship)

  datatype Decision = Decision(validated: bool, distinctSuccessfulContexts: nat)

  /** Confidence is in hundredths. */
  datatype LessonState = LessonState(
    id: Id, version: nat, sourceExperience: Id, hypothesisId: Id, status: LessonStatus,
    contextMatch: ContextSelector, avoid: Option<ActionPattern>, prefer: Option<ActionPattern>,
    confidence: nat, evidence: seq<EvidenceRef>, validation: Option<Decision>)
}
