/** One lesson as the store keeps it: the experiments that have finished, the uses of the
  * lesson in recorded experiences, and the lesson itself.  The evidence that an application
  * is judged by is read off these tables.
  */
module LessonStore {
  import opened Evaluation
  import opened LessonData
  import opened Experiment
  import opened Lesson
  import R = LessonRuns
  import opened Wrappers

  // ----- Tables -----

  /** What an experience reports of its use of the lesson.  `evidenced`: an observer
    * recorded the action that the use resulted in. */
  datatype Use = Use(applied: bool, observed: bool, delivered: bool, evidenced: bool, relevance: real)

  /** An experience, with its uses of this lesson. */
  datatype Lived = Lived(id: Id, outcome: Outcome, treeHash: string, context: Context, uses: seq<Use>)

  datatype Row = Row(experience: Lived, use: Use)

  /** `sourceTree`: the tree of the experience that the lesson comes from. */
  datatype Tables = Tables(
    lesson: LessonState, sourceTree: string, experiments: seq<ExperimentRecord>, experiences: set<Id>, rows: seq<Row>)

  // ----- The evidence -----

  predicate Concluded(e: ExperimentRecord, id: Id, c: Conclusion) {
    e.lessonId == id && e.status == ExperimentCompleted && e.conclusion == c
  }

  function ConcludedIds(experiments: seq<ExperimentRecord>, id: Id, c: Conclusion): seq<Id> {
    if experiments == [] then []
    else
      var last := experiments[|experiments| - 1];
      ConcludedIds(experiments[..|experiments| - 1], id, c) + if Concluded(last, id, c) then [last.id] else []
  }

  function EvidenceOf(r: Row, selector: ContextSelector, sourceTree: string): ApplicationEvidence {
    var x := r.experience;
    ApplicationEvidence(
      x.treeHash + ":" + x.context.fingerprint, x.treeHash != sourceTree, r.use.observed && r.use.delivered,
      x.outcome == Success, r.use.relevance >= 0.7 && selector.Matches(x.context))
  }

  function Evidences(rows: seq<Row>, selector: ContextSelector, sourceTree: string): seq<ApplicationEvidence> {
    if rows == [] then []
    else
      var last := rows[|rows| - 1];
      Evidences(rows[..|rows| - 1], selector, sourceTree)
      + if last.use.applied then [EvidenceOf(last, selector, sourceTree)] else []
  }

  function SummaryOf(t: Tables): Summary {
    Summary(ConcludedIds(t.experiments, t.lesson.id, SupportsHypothesis),
            ConcludedIds(t.experiments, t.lesson.id, ContradictsHypothesis),
            Evidences(t.rows, t.lesson.contextMatch, t.sourceTree))
  }

  lemma ConcludedSnoc(experiments: seq<ExperimentRecord>, e: ExperimentRecord, id: Id, c: Conclusion)
    ensures ConcludedIds(experiments + [e], id, c)
      == ConcludedIds(experiments, id, c) + if Concluded(e, id, c) then [e.id] else []
  {
    assert (experiments + [e])[..|experiments|] == experiments;
  }

  lemma EvidencesSnoc(rows: seq<Row>, r: Row, selector: ContextSelector, sourceTree: string)
    ensures Evidences(rows + [r], selector, sourceTree)
      == Evidences(rows, selector, sourceTree) + if r.use.applied then [EvidenceOf(r, selector, sourceTree)] else []
  {
    assert (rows + [r])[..|rows|] == rows;
  }

  // ----- Changes -----

  datatype Change = FinishExperiment(e: ExperimentRecord) | InsertExperience(x: Lived) | RetireLesson

  predicate HasFinished(t: Tables, id: Id) { exists i :: 0 <= i < |t.experiments| && t.experiments[i].id == id }

  /** The experiment completed and is about this lesson. */
  predicate Reaches(t: Tables, e: ExperimentRecord) { e.status == ExperimentCompleted && e.lessonId == t.lesson.id }

  predicate MayFinish(t: Tables, e: ExperimentRecord) {
    && e.status != ExperimentRunning && (e.status != ExperimentCompleted ==> e.conclusion == NoConclusion)
    && !HasFinished(t, e.id)
  }

  /** What the store asks of a use before it records it. */
  predicate UseFits(l: LessonState, x: Lived, u: Use) {
    l.contextMatch.Matches(x.context) && (u.applied && u.observed ==> u.delivered && u.evidenced)
  }

  /** The experience is new, uses the lesson at most once, and its use fits. */
  predicate MayInsert(t: Tables, x: Lived) {
    && x.id !in t.experiences && |x.uses| <= 1
    && forall i :: 0 <= i < |x.uses| ==> UseFits(t.lesson, x, x.uses[i])
  }

  /** An observed application, which the lesson is told of. */
  predicate Counts(x: Lived) { |x.uses| == 1 && x.uses[0].applied && x.uses[0].observed }

  function ApplicationOf(id: Id, x: Lived): Application {
    Application(x.id, x.outcome,
                seq(|x.uses|, i requires 0 <= i < |x.uses| => LessonUse(id, x.uses[i].applied, x.uses[i].observed)))
  }

  function Recorded(t: Tables, x: Lived): Tables {
    t.(experiences := t.experiences + {x.id}, rows := t.rows + if |x.uses| == 1 then [Row(x, x.uses[0])] else [])
  }

  predicate Accepts(t: Tables, c: Change) {
    match c
    case FinishExperiment(e) => MayFinish(t, e) && (Reaches(t, e) ==> AcceptsExperiment(t.lesson, e))
    case InsertExperience(x) =>
      && MayInsert(t, x)
      && (Counts(x) && t.lesson.status != Retired ==> AcceptsApplication(t.lesson, ApplicationOf(t.lesson.id, x)))
    case RetireLesson => t.lesson.status == Retired || t.lesson.version < U32_MAX
  }

  /** What a change does to the lesson, if anything. */
  function EventOf(t: Tables, c: Change): Option<R.Event> {
    match c
    case FinishExperiment(e) => if Reaches(t, e) then Some(R.RunExperiment(e)) else None
    case InsertExperience(x) =>
      if Counts(x) then Some(R.RunApplication(ApplicationOf(t.lesson.id, x), SummaryOf(Recorded(t, x)))) else None
    case RetireLesson => Some(R.Retirement)
  }

  function LessonAfter(l: LessonState, ev: Option<R.Event>): LessonState {
    if ev.Some? then R.Step(R.Ledger(l, 0, 0, 0), ev.value).lesson else l
  }

  /** A refused change is rolled back. */
  function Step(t: Tables, c: Change): Tables {
    if !Accepts(t, c) then t
    else
      var lesson := LessonAfter(t.lesson, EventOf(t, c));
      match c
      case FinishExperiment(e) => t.(lesson := lesson, experiments := t.experiments + [e])
      case InsertExperience(x) => Recorded(t, x).(lesson := lesson)
      case RetireLesson => t.(lesson := lesson)
  }

  function After(t: Tables, changes: seq<Change>): Tables {
    if changes == [] then t else Step(After(t, changes[..|changes| - 1]), changes[|changes| - 1])
  }

  /** A new lesson, of an experience on record. */
  predicate IsNew(t: Tables) {
    R.IsFresh(t.lesson) && t.experiments == [] && t.rows == [] && t.lesson.sourceExperience in t.experiences
  }

  lemma AppliesToItself(l: LessonState, x: Lived)
    requires Counts(x)
    ensures UsedBy(l, ApplicationOf(l.id, x))
  {
    assert ApplicationOf(l.id, x).uses[0] == LessonUse(l.id, true, true);
  }

  // ----- What the tables say of the lesson -----

  /** Trial evidence stands exactly for concluded experiments. */
  predicate TrialsMatch(t: Tables) {
    && (SummaryOf(t).controlledSupports != [] <==> R.HasTrial(t.lesson.evidence, Supports))
    && (SummaryOf(t).controlledContradictions != [] <==> R.HasTrial(t.lesson.evidence, Contradicts))
  }

  /** A validated lesson would be validated again by what the tables hold now, and its
    * confidence is what the stored decision's count calls for. */
  predicate StandsValidated(t: Tables) {
    t.lesson.status == Validated ==>
      && Decide(t.lesson, SummaryOf(t)).validated && R.Agrees(t.lesson)
      && t.lesson.confidence == if t.lesson.validation.value.distinctSuccessfulContexts == 1 then 90 else 94
  }

  /** Whatever evidence refers to is in the tables. */
  predicate ReferencesKnown(t: Tables) {
    forall i :: 0 <= i < |t.lesson.evidence| ==>
      match t.lesson.evidence[i]
      case Experience(x, relationship) => x in t.experiences
      case Trial(e, _, _) => HasFinished(t, e)
  }

  predicate Inv(t: Tables) {
    R.StatusFits(t.lesson) && R.DecisionFits(t.lesson) && TrialsMatch(t) && StandsValidated(t)
  }

  lemma FinishKeepsInv(t: Tables, e: ExperimentRecord)
    requires Inv(t) && Accepts(t, FinishExperiment(e))
    ensures Inv(Step(t, FinishExperiment(e)))
  {
    ConcludedSnoc(t.experiments, e, t.lesson.id, SupportsHypothesis);
    ConcludedSnoc(t.experiments, e, t.lesson.id, ContradictsHypothesis);
    if Reaches(t, e) {
      R.AddedTrials(t.lesson, e, Supports);
      R.AddedTrials(t.lesson, e, Contradicts);
      R.StepKeepsStatus(R.Ledger(t.lesson, 0, 0, 0), R.RunExperiment(e));
    }
  }

  /** Recording an experience takes no evidence away. */
  lemma MoreEvidence(t: Tables, x: Lived)
    ensures SummaryOf(Recorded(t, x)).controlledSupports == SummaryOf(t).controlledSupports
    ensures SummaryOf(Recorded(t, x)).controlledContradictions == SummaryOf(t).controlledContradictions
    ensures QualifyingContexts(SummaryOf(t).applications) <= QualifyingContexts(SummaryOf(Recorded(t, x)).applications)
  {
    if |x.uses| == 1 {
      var r := Row(x, x.uses[0]);
      EvidencesSnoc(t.rows, r, t.lesson.contextMatch, t.sourceTree);
      OneMoreContext(SummaryOf(t).applications, EvidenceOf(r, t.lesson.contextMatch, t.sourceTree));
    } else {
      assert t.rows + [] == t.rows;
    }
  }

  lemma StaysDecided(l: LessonState, s: Summary, more: Summary)
    requires Decide(l, s).validated
    requires more.controlledSupports == s.controlledSupports
    requires more.controlledContradictions == s.controlledContradictions
    requires QualifyingContexts(s.applications) <= QualifyingContexts(more.applications)
    ensures Decide(l, more).validated
  {
    assert QualifyingContexts(s.applications) != {};
  }

  /** The decision an application stores stands with the lesson that it leaves. */
  lemma ApplicationStands(l: LessonState, a: Application, s: Summary)
    requires l.status == Validated ==> Decide(l, s).validated
    ensures
      var n := AfterApplication(l, a, s);
      n.status == Validated ==>
        && Decide(n, s).validated && R.Agrees(n)
        && n.confidence == if n.validation.value.distinctSuccessfulContexts == 1 then 90 else 94
  {
  }

  lemma RecordingKeepsInv(t: Tables, x: Lived)
    requires Inv(t)
    ensures Inv(Recorded(t, x))
    ensures t.lesson.status == Validated ==> Decide(t.lesson, SummaryOf(Recorded(t, x))).validated
  {
    MoreEvidence(t, x);
    if t.lesson.status == Validated {
      StaysDecided(t.lesson, SummaryOf(t), SummaryOf(Recorded(t, x)));
    }
  }

  /** The tables with the lesson after an application, judged by what they hold. */
  lemma ApplicationKeepsInv(t: Tables, a: Application)
    requires Inv(t) && AcceptsApplication(t.lesson, a)
    ensures Inv(t.(lesson := AfterApplication(t.lesson, a, SummaryOf(t))))
  {
    var l, s := t.lesson, SummaryOf(t);
    var n := t.(lesson := AfterApplication(l, a, s));
    assert SummaryOf(n) == s;
    ApplicationStands(l, a, s);
    R.AddedApplication(l, a, Supports);
    R.AddedApplication(l, a, Contradicts);
    R.StepKeepsStatus(R.Ledger(l, 0, 0, 0), R.RunApplication(a, s));
  }

  lemma InsertKeepsInv(t: Tables, x: Lived)
    requires Inv(t) && Accepts(t, InsertExperience(x))
    ensures Inv(Step(t, InsertExperience(x)))
  {
    var recorded := Recorded(t, x);
    RecordingKeepsInv(t, x);
    if Counts(x) && t.lesson.status != Retired {
      ApplicationKeepsInv(recorded, ApplicationOf(t.lesson.id, x));
    }
  }

  lemma StepKeepsInv(t: Tables, c: Change)
    requires Inv(t)
    ensures Inv(Step(t, c))
  {
    if Accepts(t, c) {
      match c
      case FinishExperiment(e) => FinishKeepsInv(t, e);
      case InsertExperience(x) => InsertKeepsInv(t, x);
      case RetireLesson =>
    }
  }

  lemma {:induction false} RunKeepsInv(t: Tables, changes: seq<Change>)
    requires IsNew(t)
    ensures Inv(After(t, changes))
  {
    if changes == [] {
      assert !R.HasTrial(t.lesson.evidence, Supports) && !R.HasTrial(t.lesson.evidence, Contradicts);
    } else {
      RunKeepsInv(t, changes[..|changes| - 1]);
      StepKeepsInv(After(t, changes[..|changes| - 1]), changes[|changes| - 1]);
    }
  }

  /** A summary the store builds for a validated lesson validates it. */
  lemma StoreSummariesSupport(t: Tables, c: Change)
    requires Inv(t) && Accepts(t, c) && EventOf(t, c).Some?
    ensures R.ComesSupported(t.lesson, EventOf(t, c).value)
  {
    if c.InsertExperience? {
      RecordingKeepsInv(t, c.x);
      ValidationMeans(t.lesson, SummaryOf(Recorded(t, c.x)));
    }
  }

  lemma CountsDoNotMatter(r: R.Ledger, ev: R.Event)
    ensures R.Step(r, ev).lesson == LessonAfter(r.lesson, Some(ev))
  {
  }

  lemma SupportedSnoc(l: LessonState, events: seq<R.Event>, ev: R.Event)
    requires R.AllComeSupported(l, events) && R.ComesSupported(R.After(l, events).lesson, ev)
    ensures R.AllComeSupported(l, events + [ev])
  {
    assert (events + [ev])[..|events|] == events;
  }

  /** One more change is at most one more event. */
  lemma OneMoreChange(l: LessonState, now: Tables, events: seq<R.Event>, c: Change) returns (longer: seq<R.Event>)
    requires Inv(now) && now.lesson == R.After(l, events).lesson && R.AllComeSupported(l, events)
    ensures Step(now, c).lesson == R.After(l, longer).lesson && R.AllComeSupported(l, longer)
  {
    var ev := EventOf(now, c);
    if Accepts(now, c) && ev.Some? {
      StoreSummariesSupport(now, c);
      R.OneMoreEvent(l, events, ev.value);
      CountsDoNotMatter(R.After(l, events), ev.value);
      SupportedSnoc(l, events, ev.value);
      longer := events + [ev.value];
    } else {
      longer := events;
    }
  }

  /** The store's runs are runs of the lesson in which every application to a validated lesson
    * comes with a summary that validates. */
  lemma {:induction false} StoreRunsComeSupported(t: Tables, changes: seq<Change>) returns (events: seq<R.Event>)
    requires IsNew(t)
    ensures After(t, changes).lesson == R.After(t.lesson, events).lesson && R.AllComeSupported(t.lesson, events)
  {
    if changes == [] {
      events := [];
    } else {
      var before := changes[..|changes| - 1];
      events := StoreRunsComeSupported(t, before);
      RunKeepsInv(t, before);
      events := OneMoreChange(t.lesson, After(t, before), events, changes[|changes| - 1]);
    }
  }

  /** In every run of the store a lesson that is not retired is validated exactly when its
    * stored decision validates; that decision would be made again by the evidence the store
    * holds now; and it fixes the confidence. */
  lemma ValidatedExactlyWhenDecided(t: Tables, changes: seq<Change>)
    requires IsNew(t)
    ensures
      var now := After(t, changes);
      var l := now.lesson;
      && (l.status != Retired ==>
            (l.status == Validated <==> l.validation.Some? && l.validation.value.validated))
      && (l.status == Validated ==>
            && Decide(l, SummaryOf(now)).validated
            && l.confidence == if l.validation.value.distinctSuccessfulContexts == 1 then 90 else 94)
  {
    RunKeepsInv(t, changes);
  }

  // ----- The decision, said of the tables -----

  /** The row is of a use that was applied, seen and delivered, in an experience that succeeded
    * on another tree than the source's, where the lesson was relevant. */
  predicate Proves(t: Tables, r: Row) {
    && r.use.applied && r.use.observed && r.use.delivered && r.use.relevance >= 0.7
    && r.experience.outcome == Success && r.experience.treeHash != t.sourceTree
    && t.lesson.contextMatch.Matches(r.experience.context)
  }

  /** Contexts are told apart by the tree and the environment of the experience. */
  function KeyOf(r: Row): string { r.experience.treeHash + ":" + r.experience.context.fingerprint }

  lemma {:induction false} EvidencesAre(rows: seq<Row>, selector: ContextSelector, sourceTree: string, a: ApplicationEvidence)
    ensures a in Evidences(rows, selector, sourceTree) <==>
      exists i :: 0 <= i < |rows| && rows[i].use.applied && EvidenceOf(rows[i], selector, sourceTree) == a
  {
    if rows != [] {
      var front, last := rows[..|rows| - 1], rows[|rows| - 1];
      EvidencesAre(front, selector, sourceTree, a);
      if i :| 0 <= i < |front| && front[i].use.applied && EvidenceOf(front[i], selector, sourceTree) == a {
        assert rows[i] == front[i];
      }
      if i :| 0 <= i < |rows| && rows[i].use.applied && EvidenceOf(rows[i], selector, sourceTree) == a {
        assert i < |front| ==> front[i] == rows[i];
      }
    }
  }

  /** The contexts that count are those of the rows that prove something. */
  lemma ContextsAre(t: Tables, key: string)
    ensures key in QualifyingContexts(SummaryOf(t).applications) <==>
      exists r :: r in t.rows && Proves(t, r) && KeyOf(r) == key
  {
    var selector, sourceTree := t.lesson.contextMatch, t.sourceTree;
    var contexts := QualifyingContexts(SummaryOf(t).applications);
    if key in contexts {
      var a :| a in SummaryOf(t).applications && Qualifies(a) && a.contextKey == key;
      EvidencesAre(t.rows, selector, sourceTree, a);
      var i :| 0 <= i < |t.rows| && t.rows[i].use.applied && EvidenceOf(t.rows[i], selector, sourceTree) == a;
      assert Proves(t, t.rows[i]) && KeyOf(t.rows[i]) == key;
    }
    if r :| r in t.rows && Proves(t, r) && KeyOf(r) == key {
      var a := EvidenceOf(r, selector, sourceTree);
      EvidencesAre(t.rows, selector, sourceTree, a);
      assert a in SummaryOf(t).applications && Qualifies(a) && a.contextKey == key;
    }
  }

  lemma {:induction false} ConcludedAre(experiments: seq<ExperimentRecord>, id: Id, c: Conclusion)
    ensures ConcludedIds(experiments, id, c) != [] <==>
      exists e :: e in experiments && e.lessonId == id && e.status == ExperimentCompleted && e.conclusion == c
  {
    if experiments != [] {
      var front, last := experiments[..|experiments| - 1], experiments[|experiments| - 1];
      ConcludedAre(front, id, c);
      assert experiments == front + [last];
    }
  }

  /** The lesson is judged valid on the tables exactly when it stands supported or validated,
    * some completed experiment supports it, none contradicts it, and some row proves it. */
  lemma DecisionExactlyWhen(t: Tables)
    ensures Decide(t.lesson, SummaryOf(t)).validated <==>
      && (t.lesson.status == CounterfactuallySupported || t.lesson.status == Validated)
      && (exists e :: e in t.experiments && e.lessonId == t.lesson.id && e.status == ExperimentCompleted
                      && e.conclusion == SupportsHypothesis)
      && !(exists e :: e in t.experiments && e.lessonId == t.lesson.id && e.status == ExperimentCompleted
                       && e.conclusion == ContradictsHypothesis)
      && exists r :: r in t.rows && Proves(t, r)
  {
    ConcludedAre(t.experiments, t.lesson.id, SupportsHypothesis);
    ConcludedAre(t.experiments, t.lesson.id, ContradictsHypothesis);
    var contexts := QualifyingContexts(SummaryOf(t).applications);
    if r :| r in t.rows && Proves(t, r) {
      ContextsAre(t, KeyOf(r));
      assert KeyOf(r) in contexts;
    }
    if contexts != {} {
      var key :| key in contexts;
      ContextsAre(t, key);
    }
  }

  /** The decision counts the contexts of the rows that prove something, each once. */
  lemma DecisionCounts(t: Tables)
    ensures Decide(t.lesson, SummaryOf(t)).distinctSuccessfulContexts == |set r | r in t.rows && Proves(t, r) :: KeyOf(r)|
  {
    var contexts := QualifyingContexts(SummaryOf(t).applications);
    var keys := set r | r in t.rows && Proves(t, r) :: KeyOf(r);
    forall key ensures key in contexts <==> key in keys {
      ContextsAre(t, key);
    }
    assert contexts == keys;
  }

  /** What an accepted change leaves in the tables, and what a refused one does not change. */
  lemma TablesGrow(t: Tables, c: Change)
    ensures
      var n := Step(t, c);
      if !Accepts(t, c) then n == t
      else
        && n.sourceTree == t.sourceTree
        && match c
           case FinishExperiment(e) => n == Tables(n.lesson, t.sourceTree, t.experiments + [e], t.experiences, t.rows)
           case InsertExperience(x) =>
             && n.experiments == t.experiments && n.experiences == t.experiences + {x.id}
             && (x.uses == [] ==> n.rows == t.rows)
             && forall u :: x.uses == [u] ==> n.rows == t.rows + [Row(x, u)]
           case RetireLesson => n == t.(lesson := n.lesson)
  {
  }

  // ----- The lesson's own guards against repetition never fire -----

  lemma FinishKeepsReferences(t: Tables, e: ExperimentRecord)
    requires ReferencesKnown(t) && Accepts(t, FinishExperiment(e))
    ensures ReferencesKnown(Step(t, FinishExperiment(e)))
  {
    var n := Step(t, FinishExperiment(e));
    assert n.experiments[|t.experiments|] == e;
    forall id | HasFinished(t, id) ensures HasFinished(n, id) {
      var i :| 0 <= i < |t.experiments| && t.experiments[i].id == id;
      assert n.experiments[i] == t.experiments[i];
    }
    KnownThroughout(t, n, if Reaches(t, e) then TrialEvidence(e) else []);
  }

  lemma KnownThroughout(t: Tables, n: Tables, added: seq<EvidenceRef>)
    requires ReferencesKnown(t) && n.lesson.evidence == t.lesson.evidence + added
    requires t.experiences <= n.experiences && forall id :: HasFinished(t, id) ==> HasFinished(n, id)
    requires forall i :: 0 <= i < |added| ==>
      if added[i].Experience? then added[i].experienceId in n.experiences else HasFinished(n, added[i].experimentId)
    ensures ReferencesKnown(n)
  {
    forall i | 0 <= i < |n.lesson.evidence|
      ensures match n.lesson.evidence[i]
        case Experience(x, relationship) => x in n.experiences
        case Trial(e, _, _) => HasFinished(n, e)
    {
      if i < |t.lesson.evidence| {
        assert n.lesson.evidence[i] == t.lesson.evidence[i];
      } else {
        assert n.lesson.evidence[i] == added[i - |t.lesson.evidence|];
      }
    }
  }

  lemma InsertKeepsReferences(t: Tables, x: Lived)
    requires ReferencesKnown(t) && Accepts(t, InsertExperience(x))
    ensures ReferencesKnown(Step(t, InsertExperience(x)))
  {
    var n, a := Step(t, InsertExperience(x)), ApplicationOf(t.lesson.id, x);
    forall id | HasFinished(t, id) ensures HasFinished(n, id) {
      var i :| 0 <= i < |t.experiments| && t.experiments[i].id == id;
      assert n.experiments[i].id == id;
    }
    KnownThroughout(t, n, if n.lesson.evidence == t.lesson.evidence then [] else [ReferenceTo(a)]);
  }

  lemma {:induction false} RunKeepsReferences(t: Tables, changes: seq<Change>)
    requires IsNew(t)
    ensures ReferencesKnown(After(t, changes))
  {
    if changes != [] {
      var before, c := After(t, changes[..|changes| - 1]), changes[|changes| - 1];
      RunKeepsReferences(t, changes[..|changes| - 1]);
      if Accepts(before, c) {
        match c
        case FinishExperiment(e) => FinishKeepsReferences(before, e);
        case InsertExperience(x) => InsertKeepsReferences(before, x);
        case RetireLesson =>
      }
    }
  }

  /** A new experience's reference is new to the lesson, and so are a new experiment's trials. */
  lemma NothingNewIsRepeated(t: Tables, id: Id)
    requires ReferencesKnown(t)
    ensures id !in t.experiences ==> forall r :: Experience(id, r) !in t.lesson.evidence
    ensures !HasFinished(t, id) ==> !AlreadyApplied(t.lesson, id)
  {
  }

  lemma FinishAcceptedExactlyWhen(now: Tables, e: ExperimentRecord)
    requires ReferencesKnown(now)
    ensures Accepts(now, FinishExperiment(e)) <==>
      && e.status != ExperimentRunning && (forall f :: f in now.experiments ==> f.id != e.id)
      && (if e.status != ExperimentCompleted then e.conclusion == NoConclusion
          else e.lessonId == now.lesson.id ==>
                 TestsLesson(now.lesson, e) && now.lesson.status != Retired && now.lesson.version < 4_294_967_295)
  {
    NothingNewIsRepeated(now, e.id);
  }

  lemma InsertAcceptedExactlyWhen(now: Tables, x: Lived)
    requires ReferencesKnown(now)
    ensures Accepts(now, InsertExperience(x)) <==>
      && x.id !in now.experiences && |x.uses| <= 1
      && forall u :: u in x.uses ==>
           && now.lesson.contextMatch.Matches(x.context)
           && (u.applied && u.observed ==>
                 u.delivered && u.evidenced && (now.lesson.status == Retired || now.lesson.version < 4_294_967_295))
  {
    NothingNewIsRepeated(now, x.id);
    if Counts(x) {
      AppliesToItself(now.lesson, x);
    }
  }

  /** In every run of the store, what is refused is refused by the store's own conditions, by
    * a record that does not test the lesson, by retirement, or for want of a version: the
    * lesson's guards against counting twice never fire. */
  lemma AcceptsExactlyWhen(t: Tables, changes: seq<Change>, c: Change)
    requires IsNew(t)
    ensures
      var now := After(t, changes);
      var l := now.lesson;
      Accepts(now, c) <==>
        match c
        case FinishExperiment(e) =>
          && e.status != ExperimentRunning && (forall f :: f in now.experiments ==> f.id != e.id)
          && (if e.status != ExperimentCompleted then e.conclusion == NoConclusion
              else e.lessonId == l.id ==> TestsLesson(l, e) && l.status != Retired && l.version < 4_294_967_295)
        case InsertExperience(x) =>
          && x.id !in now.experiences && |x.uses| <= 1
          && forall u :: u in x.uses ==>
               && l.contextMatch.Matches(x.context)
               && (u.applied && u.observed ==>
                     u.delivered && u.evidenced && (l.status == Retired || l.version < 4_294_967_295))
        case RetireLesson => l.status == Retired || l.version < 4_294_967_295
  {
    var now := After(t, changes);
    RunKeepsReferences(t, changes);
    match c
    case FinishExperiment(e) => FinishAcceptedExactlyWhen(now, e);
    case InsertExperience(x) => InsertAcceptedExactlyWhen(now, x);
    case RetireLesson =>
  }

  // ----- The object -----

  /** `lesson_evidence_summary`. */
  method LessonEvidenceSummary(t: Tables) returns (s: Summary)
    ensures s == SummaryOf(t)
  {
    var supports, contradictions: seq<Id> := [], [];
    for i := 0 to |t.experiments|
      invariant supports == ConcludedIds(t.experiments[..i], t.lesson.id, SupportsHypothesis)
      invariant contradictions == ConcludedIds(t.experiments[..i], t.lesson.id, ContradictsHypothesis)
    {
      var e := t.experiments[i];
      assert t.experiments[..i + 1][..i] == t.experiments[..i];
      if e.lessonId == t.lesson.id && e.status == ExperimentCompleted {
        match e.conclusion
        case SupportsHypothesis => supports := supports + [e.id];
        case ContradictsHypothesis => contradictions := contradictions + [e.id];
        case NoConclusion =>
      }
    }
    assert t.experiments[..|t.experiments|] == t.experiments;
    var applications: seq<ApplicationEvidence> := [];
    for i := 0 to |t.rows|
      invariant applications == Evidences(t.rows[..i], t.lesson.contextMatch, t.sourceTree)
    {
      assert t.rows[..i + 1][..i] == t.rows[..i];
      if t.rows[i].use.applied {
        applications := applications + [EvidenceOf(t.rows[i], t.lesson.contextMatch, t.sourceTree)];
      }
    }
    assert t.rows[..|t.rows|] == t.rows;
    return Summary(supports, contradictions, applications);
  }

  class Store {
    const lesson: Lesson
    const sourceTree: string
    var experiments: seq<ExperimentRecord>
    var experiences: set<Id>
    var rows: seq<Row>

    function View(): Tables
      reads this, lesson
    {
      Tables(lesson.View(), sourceTree, experiments, experiences, rows)
    }

    constructor (lesson: Lesson, sourceTree: string)
      requires R.IsFresh(lesson.View())
      ensures this.lesson == lesson && IsNew(View())
      ensures View() == Tables(lesson.View(), sourceTree, [], {lesson.sourceExperience}, [])
    {
      this.lesson := lesson;
      this.sourceTree := sourceTree;
      experiments, experiences, rows := [], {lesson.sourceExperience}, [];
    }

    /** `finish_experiment`: one transaction. */
    method FinishExperiment(e: ExperimentRecord) returns (ok: bool)
      modifies this, lesson
      ensures ok <==> Accepts(old(View()), Change.FinishExperiment(e))
      ensures View() == Step(old(View()), Change.FinishExperiment(e))
    {
      if e.status == ExperimentRunning || (e.status != ExperimentCompleted && e.conclusion != NoConclusion) {
        return false;
      }
      if exists i :: 0 <= i < |experiments| && experiments[i].id == e.id {
        return false;
      }
      if e.status == ExperimentCompleted && e.lessonId == lesson.id {
        ok := lesson.ApplyExperiment(e);
        if !ok {
          return;
        }
      }
      experiments := experiments + [e];
      return true;
    }

    /** `insert_learning`, for this lesson: the rows come first, so the summary counts them;
      * a refusal rolls them back. */
    method InsertExperience(x: Lived) returns (ok: bool)
      modifies this, lesson
      ensures ok <==> Accepts(old(View()), Change.InsertExperience(x))
      ensures View() == Step(old(View()), Change.InsertExperience(x))
    {
      if !MayInsert(View(), x) {
        return false;
      }
      var oldExperiences, oldRows := experiences, rows;
      experiences := experiences + {x.id};
      rows := rows + if |x.uses| == 1 then [Row(x, x.uses[0])] else [];
      if |x.uses| == 1 && x.uses[0].applied && x.uses[0].observed {
        AppliesToItself(lesson.View(), x);
        var summary := LessonEvidenceSummary(View());
        ok := lesson.ApplyApplication(ApplicationOf(lesson.id, x), summary);
        if !ok {
          experiences, rows := oldExperiences, oldRows;
          return;
        }
      }
      return true;
    }

    /** `retire_lesson`. */
    method RetireLesson() returns (ok: bool)
      modifies lesson
      ensures ok <==> Accepts(old(View()), Change.RetireLesson)
      ensures View() == Step(old(View()), Change.RetireLesson)
    {
      ok := lesson.Retire();
    }
  }
}
