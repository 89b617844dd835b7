/** Artifact capacity reservations, shared by concurrent processes.
  *
  * A producer takes the capacity lock, sums the records of live reservations
  * (unlinking the records nobody holds locked), measures the artifact tree while
  * other producers keep writing to it, asks the policy for room, leaves a locked
  * record of its own and gives the capacity lock back.  It then writes at most
  * what it reserved and releases its record on drop.  Any process can crash at
  * any point; a crash drops its locks and leaves its record and its files.
  *
  * A process stands for one reservation.  Record and file names are never
  * reused, so both are indices, and unlinked ones stay as absent.
  */
module ReservationProtocol {
  import opened StorageUsage

  datatype Artifact = Artifact(present: bool, bytes: nat)

  datatype Holder = Nobody | Process(pid: nat)

  datatype Body = Empty | Reserves(usage: Usage)

  datatype Record = Record(present: bool, body: Body, holder: Holder)

  /** `base` is history: what each process had written when the walk began. */
  datatype Phase =
    | Idle
    | Scanning(request: Usage, todo: set<nat>, active: Usage)
    | Walking(request: Usage, active: Usage, initial: set<nat>, visited: set<nat>, measured: Usage, base: seq<Usage>)
    | Admitted(request: Usage)
    | RecordCreated(request: Usage, rec: nat)
    | RecordLocked(request: Usage, rec: nat)
    | RecordWritten(request: Usage, rec: nat)
    | Producing(rec: nat)
    | Releasing(rec: nat)
    | Dead

  datatype Proc = Proc(phase: Phase, reserved: Usage, written: Usage)
  {
    /** The reservation exists: granted, and not yet released. */
    predicate Live() { phase.Producing? || phase.Releasing? }

    predicate InSection() {
      phase.Scanning? || phase.Walking? || phase.Admitted? || phase.RecordCreated? || phase.RecordLocked? ||
      phase.RecordWritten? || phase.Releasing?
    }

    predicate HasRecord() {
      phase.RecordCreated? || phase.RecordLocked? || phase.RecordWritten? || Live()
    }
  }

  datatype State = State(policy: Policy, disk: seq<Artifact>, records: seq<Record>, capacity: Holder, procs: seq<Proc>)

  datatype Event =
    | BeginScan(p: nat, request: Usage)
    | ScanLive(p: nat, rec: nat)
    | ScanStale(p: nat, rec: nat)
    | BeginWalk(p: nat)
    | Visit(p: nat, slot: nat)
    | Decide(p: nat, available: nat)
    | CreateRecord(p: nat)
    | LockRecord(p: nat)
    | WriteRecord(p: nat)
    | Return(p: nat)
    | GiveUp(p: nat)
    | NewArtifact(p: nat, bytes: nat)
    | Grow(p: nat, slot: nat, bytes: nat)
    | BeginRelease(p: nat)
    | FinishRelease(p: nat)
    | FailRelease(p: nat)
    | Crash(p: nat)
    | Restart(p: nat)
    | RemoveArtifact(slot: nat)

  // ----- Steps -----

  function SetProc(s: State, p: nat, q: Proc): State
    requires p < |s.procs|
  {
    s.(procs := s.procs[p := q])
  }

  function SetPhase(s: State, p: nat, phase: Phase): State
    requires p < |s.procs|
  {
    SetProc(s, p, s.procs[p].(phase := phase))
  }

  function SetRecord(s: State, r: nat, rec: Record): State
    requires r < |s.records|
  {
    s.(records := s.records[r := rec])
  }

  /** Closing its descriptors drops the locks `p` has. */
  function DropLocks(s: State, p: nat): State
    requires p < |s.procs|
  {
    var t := if s.capacity == Process(p) then s.(capacity := Nobody) else s;
    if s.procs[p].HasRecord() && s.procs[p].phase.rec < |s.records| && s.records[s.procs[p].phase.rec].holder == Process(p)
    then SetRecord(t, s.procs[p].phase.rec, s.records[s.procs[p].phase.rec].(holder := Nobody))
    else t
  }

  function PresentRecords(s: State): set<nat> {
    set r: nat | r < |s.records| && s.records[r].present
  }

  function PresentArtifacts(s: State): set<nat> {
    set i: nat | i < |s.disk| && s.disk[i].present
  }

  function Size(a: Artifact): Usage {
    if a.present then Usage(a.bytes, 1) else Usage(0, 0)
  }

  predicate Enabled(s: State, e: Event) {
    if e.RemoveArtifact? then
      e.slot < |s.disk|
    else
      e.p < |s.procs| && ProcEnabled(s, s.procs[e.p], e)
  }

  predicate ProcEnabled(s: State, q: Proc, e: Event)
    requires !e.RemoveArtifact?
  {
    match e
    case BeginScan(_, _) => q.phase.Idle? && s.capacity.Nobody?
    case ScanLive(_, r) =>
      && q.phase.Scanning? && r in q.phase.todo && r < |s.records|
      && s.records[r].holder.Process? && s.records[r].body.Reserves?
      && CheckedAdd(q.phase.active, s.records[r].body.usage).Value?
    case ScanStale(_, r) => q.phase.Scanning? && r in q.phase.todo && r < |s.records| && s.records[r].holder.Nobody?
    case BeginWalk(_) => q.phase.Scanning? && q.phase.todo == {}
    case Visit(_, slot) =>
      && q.phase.Walking? && slot < |s.disk| && s.disk[slot].present && slot !in q.phase.visited
      && CheckedAdd(q.phase.measured, Size(s.disk[slot])).Value?
    case Decide(_, available) =>
      && q.phase.Walking? && s.policy.Validate()
      && (forall i :: i in q.phase.initial && i < |s.disk| && s.disk[i].present ==> i in q.phase.visited)
      && EnsureCapacity(s.policy, q.phase.measured, available, q.phase.active, q.phase.request).Granted?
    case CreateRecord(_) => q.phase.Admitted?
    case LockRecord(_) => q.phase.RecordCreated? && q.phase.rec < |s.records| && s.records[q.phase.rec].holder.Nobody?
    case WriteRecord(_) => q.phase.RecordLocked? && q.phase.rec < |s.records|
    case Return(_) => q.phase.RecordWritten?
    case GiveUp(_) => q.InSection() && !q.phase.Releasing?
    case NewArtifact(_, bytes) => q.phase.Producing? && q.written.Plus(Usage(bytes, 1)).AtMost(q.reserved)
    case Grow(_, slot, bytes) =>
      && q.phase.Producing? && slot < |s.disk| && s.disk[slot].present
      && q.written.Plus(Usage(bytes, 0)).AtMost(q.reserved)
    case BeginRelease(_) => q.phase.Producing? && s.capacity.Nobody?
    case FinishRelease(_) => q.phase.Releasing? && q.phase.rec < |s.records|
    case FailRelease(_) => q.Live()
    case Crash(_) => !q.phase.Dead?
    case Restart(_) => q.phase.Dead?
  }

  function Step(s: State, e: Event): State
    requires Enabled(s, e)
  {
    if e.RemoveArtifact? then
      s.(disk := s.disk[e.slot := s.disk[e.slot].(present := false)])
    else
      var p := e.p;
      var q := s.procs[p];
      match e
      case BeginScan(_, request) => SetPhase(s.(capacity := Process(p)), p, Scanning(request, PresentRecords(s), Usage(0, 0)))
      case ScanLive(_, r) =>
        SetPhase(s, p, q.phase.(todo := q.phase.todo - {r}, active := CheckedAdd(q.phase.active, s.records[r].body.usage).value))
      case ScanStale(_, r) =>
        SetPhase(SetRecord(s, r, s.records[r].(present := false)), p, q.phase.(todo := q.phase.todo - {r}))
      case BeginWalk(_) =>
        SetPhase(s, p, Walking(q.phase.request, q.phase.active, PresentArtifacts(s), {}, Usage(0, 0), WrittenNow(s.procs)))
      case Visit(_, slot) =>
        SetPhase(s, p, q.phase.(visited := q.phase.visited + {slot},
                                measured := CheckedAdd(q.phase.measured, Size(s.disk[slot])).value))
      case Decide(_, _) => SetPhase(s, p, Admitted(q.phase.request))
      case CreateRecord(_) =>
        SetPhase(s.(records := s.records + [Record(true, Empty, Nobody)]), p, RecordCreated(q.phase.request, |s.records|))
      case LockRecord(_) =>
        SetPhase(SetRecord(s, q.phase.rec, s.records[q.phase.rec].(holder := Process(p))), p, RecordLocked(q.phase.request, q.phase.rec))
      case WriteRecord(_) =>
        SetPhase(SetRecord(s, q.phase.rec, s.records[q.phase.rec].(body := Reserves(q.phase.request))), p,
                 RecordWritten(q.phase.request, q.phase.rec))
      case Return(_) => SetProc(s.(capacity := Nobody), p, Proc(Producing(q.phase.rec), q.phase.request, Usage(0, 0)))
      case GiveUp(_) => SetPhase(DropLocks(s, p), p, Idle)
      case NewArtifact(_, bytes) =>
        SetProc(s.(disk := s.disk + [Artifact(true, bytes)]), p, q.(written := q.written.Plus(Usage(bytes, 1))))
      case Grow(_, slot, bytes) =>
        SetProc(s.(disk := s.disk[slot := s.disk[slot].(bytes := s.disk[slot].bytes + bytes)]), p,
                q.(written := q.written.Plus(Usage(bytes, 0))))
      case BeginRelease(_) => SetPhase(s.(capacity := Process(p)), p, Releasing(q.phase.rec))
      case FinishRelease(_) =>
        SetPhase(DropLocks(SetRecord(s, q.phase.rec, s.records[q.phase.rec].(present := false)), p), p, Idle)
      case FailRelease(_) => SetPhase(DropLocks(s, p), p, Idle)
      case Crash(_) => SetPhase(DropLocks(s, p), p, Dead)
      case Restart(_) => SetPhase(s, p, Idle)
  }

  // ----- Runs -----

  /** Earlier crashes may have left any files and any unlocked records behind. */
  predicate Initial(s: State) {
    && s.policy.Validate() && s.capacity.Nobody?
    && (forall p :: 0 <= p < |s.procs| ==> s.procs[p] == Proc(Idle, Usage(0, 0), Usage(0, 0)))
    && (forall r :: 0 <= r < |s.records| ==> s.records[r].holder.Nobody?)
  }

  predicate Run(states: seq<State>, events: seq<Event>) {
    && |states| == |events| + 1
    && Initial(states[0])
    && forall i :: 0 <= i < |events| ==> Enabled(states[i], events[i]) && states[i + 1] == Step(states[i], events[i])
  }

  // ----- What is on disk, and what is promised -----

  function WrittenNow(procs: seq<Proc>): (us: seq<Usage>)
    ensures |us| == |procs|
    ensures forall i :: 0 <= i < |us| ==> us[i] == procs[i].written
  {
    seq(|procs|, i requires 0 <= i < |procs| => procs[i].written)
  }

  function Sizes(disk: seq<Artifact>): (us: seq<Usage>)
    ensures |us| == |disk|
    ensures forall i :: 0 <= i < |us| ==> us[i] == Size(disk[i])
  {
    seq(|disk|, i requires 0 <= i < |disk| => Size(disk[i]))
  }

  function Less(a: Usage, b: Usage): Usage {
    Usage(SaturatingSub(a.bytes, b.bytes), SaturatingSub(a.files, b.files))
  }

  function StillOwed(q: Proc): Usage {
    if q.Live() then Less(q.reserved, q.written) else Usage(0, 0)
  }

  /** What live producers may still write. */
  function Outstanding(procs: seq<Proc>): (us: seq<Usage>)
    ensures |us| == |procs|
    ensures forall i :: 0 <= i < |us| ==> us[i] == StillOwed(procs[i])
  {
    seq(|procs|, i requires 0 <= i < |procs| => StillOwed(procs[i]))
  }

  /** Usage, plus everything live reservations may still add to it. */
  function Committed(s: State): Usage {
    Total(Sizes(s.disk)).Plus(Total(Outstanding(s.procs)))
  }

  function Quota(policy: Policy): Usage {
    Usage(policy.maxBytes, policy.maxFiles)
  }

  // ----- The invariant: records and locks -----

  predicate RecordInv(s: State, p: nat)
    requires p < |s.procs|
  {
    var q := s.procs[p];
    match q.phase
    case Scanning(_, todo, _) => forall r :: r in todo ==> r < |s.records|
    case RecordCreated(_, r) => r < |s.records| && s.records[r] == Record(true, Empty, Nobody)
    case RecordLocked(_, r) => r < |s.records| && s.records[r] == Record(true, Empty, Process(p))
    case RecordWritten(request, r) => r < |s.records| && s.records[r] == Record(true, Reserves(request), Process(p))
    case Producing(r) => r < |s.records| && s.records[r] == Record(true, Reserves(q.reserved), Process(p)) && q.written.AtMost(q.reserved)
    case Releasing(r) => r < |s.records| && s.records[r] == Record(true, Reserves(q.reserved), Process(p)) && q.written.AtMost(q.reserved)
    case _ => true
  }

  predicate HolderInv(s: State, r: nat)
    requires r < |s.records|
  {
    s.records[r].holder.Process? ==>
      var q := s.records[r].holder.pid;
      q < |s.procs| && s.procs[q].HasRecord() && s.procs[q].phase.rec == r
  }

  predicate LockInv(s: State) {
    && s.policy.Validate()
    && (forall p :: 0 <= p < |s.procs| ==> RecordInv(s, p))
    && (forall p :: 0 <= p < |s.procs| ==> (s.procs[p].InSection() <==> s.capacity == Process(p)))
    && (forall r :: 0 <= r < |s.records| ==> HolderInv(s, r))
    && (s.capacity.Process? ==> s.capacity.pid < |s.procs|)
  }

  lemma StepKeepsSection(s: State, e: Event)
    requires LockInv(s) && Enabled(s, e)
    ensures var t := Step(s, e);
      && |t.procs| == |s.procs|
      && (forall p :: 0 <= p < |t.procs| ==> (t.procs[p].InSection() <==> t.capacity == Process(p)))
      && (t.capacity.Process? ==> t.capacity.pid < |t.procs|)
  {
    var t := Step(s, e);
    assert |t.procs| == |s.procs|;
    forall p | 0 <= p < |t.procs| ensures t.procs[p].InSection() <==> t.capacity == Process(p) {
      assert AtSection(s, p) && (!e.RemoveArtifact? ==> AtSection(s, e.p));
      StepKeepsSectionAt(s, e, p);
    }
    if !e.RemoveArtifact? {
      assert AtSection(s, e.p);
      OwnStepMovesCapacity(s, e);
    }
  }

  lemma OthersStay(s: State, e: Event, p: nat)
    requires Enabled(s, e) && p < |s.procs| && (e.RemoveArtifact? || e.p != p)
    ensures |Step(s, e).procs| == |s.procs| && Step(s, e).procs[p] == s.procs[p]
  {
  }

  predicate AtSection(s: State, p: nat) {
    p < |s.procs| && (s.procs[p].InSection() <==> s.capacity == Process(p))
  }

  /** The capacity lock stays, is taken when free, or is given back by the process that has it. */
  predicate CapacityMoves(s: State, t: State, p: nat) {
    || t.capacity == s.capacity
    || (s.capacity.Nobody? && t.capacity == Process(p))
    || (s.capacity == Process(p) && t.capacity.Nobody?)
  }

  predicate ScansOrWalks(e: Event) {
    e.BeginScan? || e.ScanLive? || e.ScanStale? || e.BeginWalk? || e.Visit? || e.Decide?
  }

  lemma ScanKeepsSection(s: State, e: Event)
    requires ScansOrWalks(e) && Enabled(s, e) && AtSection(s, e.p)
    ensures AtSection(Step(s, e), e.p) && CapacityMoves(s, Step(s, e), e.p)
  {
  }

  predicate RecordsOrProduces(e: Event) {
    e.CreateRecord? || e.LockRecord? || e.WriteRecord? || e.Return? || e.NewArtifact? || e.Grow?
  }

  lemma RecordingKeepsSection(s: State, e: Event)
    requires RecordsOrProduces(e) && Enabled(s, e) && AtSection(s, e.p)
    ensures AtSection(Step(s, e), e.p) && CapacityMoves(s, Step(s, e), e.p)
  {
  }

  lemma EndKeepsSection(s: State, e: Event)
    requires !e.RemoveArtifact? && !ScansOrWalks(e) && !RecordsOrProduces(e) && Enabled(s, e) && AtSection(s, e.p)
    ensures AtSection(Step(s, e), e.p) && CapacityMoves(s, Step(s, e), e.p)
  {
  }

  lemma OwnStepMovesCapacity(s: State, e: Event)
    requires !e.RemoveArtifact? && Enabled(s, e) && AtSection(s, e.p)
    ensures AtSection(Step(s, e), e.p) && CapacityMoves(s, Step(s, e), e.p)
  {
    if ScansOrWalks(e) {
      ScanKeepsSection(s, e);
    } else if RecordsOrProduces(e) {
      RecordingKeepsSection(s, e);
    } else {
      EndKeepsSection(s, e);
    }
  }

  lemma StepKeepsSectionAt(s: State, e: Event, p: nat)
    requires Enabled(s, e) && AtSection(s, p) && (!e.RemoveArtifact? ==> AtSection(s, e.p))
    ensures AtSection(Step(s, e), p)
  {
    if !e.RemoveArtifact? {
      OwnStepMovesCapacity(s, e);
    }
    if e.RemoveArtifact? || e.p != p {
      OthersStay(s, e, p);
    }
  }

  /** A step changes its own process's record, or the stale one it unlinks. */
  lemma OtherRecordsUntouched(s: State, e: Event, r: nat)
    requires Enabled(s, e) && r < |s.records| && !(e.ScanStale? && e.rec == r)
    requires e.RemoveArtifact? || !s.procs[e.p].HasRecord() || s.procs[e.p].phase.rec != r
    ensures r < |Step(s, e).records| && Step(s, e).records[r] == s.records[r]
  {
  }

  lemma RecordsAreNotShared(s: State, p: nat, q: nat)
    requires LockInv(s) && p < |s.procs| && q < |s.procs| && p != q && s.procs[p].HasRecord() && s.procs[q].HasRecord()
    ensures s.procs[p].phase.rec != s.procs[q].phase.rec
  {
    assert RecordInv(s, p) && RecordInv(s, q);
    assert !(s.procs[p].InSection() && s.procs[q].InSection());
  }

  lemma StepKeepsOthersRecord(s: State, e: Event, p: nat)
    requires LockInv(s) && Enabled(s, e) && p < |s.procs| && (e.RemoveArtifact? || e.p != p)
    ensures RecordInv(Step(s, e), p)
  {
    assert RecordInv(s, p);
    assert Step(s, e).procs[p] == s.procs[p];
    if s.procs[p].HasRecord() {
      if !e.RemoveArtifact? && s.procs[e.p].HasRecord() {
        RecordsAreNotShared(s, p, e.p);
      }
      OtherRecordsUntouched(s, e, s.procs[p].phase.rec);
    } else {
      RecordsOnlyGrow(s, e);
    }
  }

  lemma RecordsOnlyGrow(s: State, e: Event)
    requires Enabled(s, e)
    ensures |s.records| <= |Step(s, e).records|
  {
  }

  lemma StepKeepsOwnRecord(s: State, e: Event)
    requires LockInv(s) && Enabled(s, e) && !e.RemoveArtifact?
    ensures RecordInv(Step(s, e), e.p)
  {
    assert RecordInv(s, e.p);
  }

  /** The event is about record `r`: it unlinks it, or its process holds it. */
  predicate About(s: State, e: Event, r: nat)
    requires Enabled(s, e)
  {
    || (e.ScanStale? && e.rec == r)
    || (!e.RemoveArtifact? && s.procs[e.p].HasRecord() && s.procs[e.p].phase.rec == r)
  }

  lemma OtherHolders(s: State, e: Event, r: nat)
    requires LockInv(s) && Enabled(s, e) && r < |s.records| && !About(s, e, r)
    ensures r < |Step(s, e).records| && HolderInv(Step(s, e), r)
  {
    assert HolderInv(s, r);
    OtherRecordsUntouched(s, e, r);
    if s.records[r].holder.Process? {
      OthersKeepTheirRecords(s, e, r);
    }
  }

  lemma ScannedHolder(s: State, e: Event, r: nat)
    requires LockInv(s) && Enabled(s, e) && r < |s.records| && About(s, e, r) && ScansOrWalks(e)
    ensures r < |Step(s, e).records| && HolderInv(Step(s, e), r)
  {
    assert HolderInv(s, r);
  }

  lemma RecordedHolder(s: State, e: Event, r: nat)
    requires LockInv(s) && Enabled(s, e) && r < |s.records| && About(s, e, r) && RecordsOrProduces(e)
    ensures r < |Step(s, e).records| && HolderInv(Step(s, e), r)
  {
    assert HolderInv(s, r);
  }

  lemma EndedHolder(s: State, e: Event, r: nat)
    requires LockInv(s) && Enabled(s, e) && r < |s.records| && About(s, e, r)
    requires !ScansOrWalks(e) && !RecordsOrProduces(e)
    ensures r < |Step(s, e).records| && HolderInv(Step(s, e), r)
  {
    assert HolderInv(s, r);
  }

  lemma StepKeepsHolders(s: State, e: Event, r: nat)
    requires LockInv(s) && Enabled(s, e) && r < |Step(s, e).records|
    ensures HolderInv(Step(s, e), r)
  {
    if r < |s.records| {
      if !About(s, e, r) {
        OtherHolders(s, e, r);
      } else if ScansOrWalks(e) {
        ScannedHolder(s, e, r);
      } else if RecordsOrProduces(e) {
        RecordedHolder(s, e, r);
      } else {
        EndedHolder(s, e, r);
      }
    }
  }

  lemma OthersKeepTheirRecords(s: State, e: Event, r: nat)
    requires LockInv(s) && Enabled(s, e) && r < |s.records| && HolderInv(s, r) && s.records[r].holder.Process?
    requires e.RemoveArtifact? || !s.procs[e.p].HasRecord() || s.procs[e.p].phase.rec != r
    ensures var q := s.records[r].holder.pid;
      q < |Step(s, e).procs| && Step(s, e).procs[q] == s.procs[q]
  {
  }

  lemma StepKeepsLockInv(s: State, e: Event)
    requires LockInv(s) && Enabled(s, e)
    ensures LockInv(Step(s, e))
  {
    var t := Step(s, e);
    StepKeepsSection(s, e);
    forall p | 0 <= p < |t.procs| ensures RecordInv(t, p) {
      if !e.RemoveArtifact? && e.p == p {
        StepKeepsOwnRecord(s, e);
      } else {
        StepKeepsOthersRecord(s, e, p);
      }
    }
    forall r | 0 <= r < |t.records| ensures HolderInv(t, r) {
      StepKeepsHolders(s, e, r);
    }
  }

  // ----- The invariant: sums -----

  function CountOf(q: Proc, todo: set<nat>): Usage {
    if q.Live() && q.phase.rec !in todo then q.reserved else Usage(0, 0)
  }

  /** Live reservations the scan has already come past. */
  function Counted(procs: seq<Proc>, todo: set<nat>): (us: seq<Usage>)
    ensures |us| == |procs|
    ensures forall i :: 0 <= i < |us| ==> us[i] == CountOf(procs[i], todo)
  {
    seq(|procs|, i requires 0 <= i < |procs| => CountOf(procs[i], todo))
  }

  /** What each process has written since the walk began. */
  function Grown(procs: seq<Proc>, base: seq<Usage>): (us: seq<Usage>)
    requires |base| == |procs|
    ensures |us| == |procs|
    ensures forall i :: 0 <= i < |us| ==> us[i] == Less(procs[i].written, base[i])
  {
    seq(|procs|, i requires 0 <= i < |procs| => Less(procs[i].written, base[i]))
  }

  function ChargeOf(q: Proc, base: Usage): Usage {
    if q.Live() then q.reserved else Less(q.written, base)
  }

  /** What each process can have added to the walk's blind spot by now. */
  function Charged(procs: seq<Proc>, base: seq<Usage>): (us: seq<Usage>)
    requires |base| == |procs|
    ensures |us| == |procs|
    ensures forall i :: 0 <= i < |us| ==> us[i] == ChargeOf(procs[i], base[i])
  {
    seq(|procs|, i requires 0 <= i < |procs| => ChargeOf(procs[i], base[i]))
  }

  function SeenSize(a: Artifact, i: nat, initial: set<nat>, visited: set<nat>): Usage {
    if i in initial && i !in visited then Usage(0, 0) else Size(a)
  }

  /** The artifacts the walk no longer has to come past: visited, or newer than it. */
  function Seen(disk: seq<Artifact>, initial: set<nat>, visited: set<nat>): (us: seq<Usage>)
    ensures |us| == |disk|
    ensures forall i :: 0 <= i < |us| ==> us[i] == SeenSize(disk[i], i, initial, visited)
  {
    seq(|disk|, i requires 0 <= i < |disk| => SeenSize(disk[i], i, initial, visited))
  }

  predicate WalkInv(s: State, w: Phase)
    requires w.Walking?
  {
    && |w.base| == |s.procs|
    && (forall i :: 0 <= i < |s.procs| ==> w.base[i].AtMost(s.procs[i].written))
    && (forall i :: i in w.initial ==> i < |s.disk|)
    && Total(Seen(s.disk, w.initial, w.visited)).AtMost(w.measured.Plus(Total(Grown(s.procs, w.base))))
    && Total(Charged(s.procs, w.base)).AtMost(w.active)
  }

  /** What the process in the capacity section may rely on. */
  predicate SectionInv(s: State) {
    s.capacity.Process? && s.capacity.pid < |s.procs| ==>
      match s.procs[s.capacity.pid].phase
      case Scanning(_, todo, active) => Total(Counted(s.procs, todo)).AtMost(active)
      case Walking(_, _, _, _, _, _) => WalkInv(s, s.procs[s.capacity.pid].phase)
      case Admitted(request) => Committed(s).Plus(request).AtMost(Quota(s.policy))
      case RecordCreated(request, _) => Committed(s).Plus(request).AtMost(Quota(s.policy))
      case RecordLocked(request, _) => Committed(s).Plus(request).AtMost(Quota(s.policy))
      case RecordWritten(request, _) => Committed(s).Plus(request).AtMost(Quota(s.policy))
      case _ => true
  }

  predicate AnyLive(s: State) {
    exists p :: 0 <= p < |s.procs| && s.procs[p].Live()
  }

  predicate QuotaInv(s: State) {
    AnyLive(s) ==> Committed(s).AtMost(Quota(s.policy))
  }

  /** Events that leave the disk, and every process's reservation, as they are. */
  predicate Neutral(e: Event) {
    e.BeginScan? || e.ScanLive? || e.ScanStale? || e.BeginWalk? || e.Visit? || e.Decide? || e.CreateRecord? ||
    e.LockRecord? || e.WriteRecord? || e.GiveUp? || e.BeginRelease? || e.Restart?
  }

  lemma NeutralKeepsBooks(s: State, e: Event)
    requires LockInv(s) && Enabled(s, e) && Neutral(e)
    ensures Step(s, e).disk == s.disk && |Step(s, e).procs| == |s.procs|
    ensures forall i :: 0 <= i < |s.procs| ==>
      var a, b := s.procs[i], Step(s, e).procs[i];
      a.reserved == b.reserved && a.written == b.written && (a.Live() <==> b.Live())
      && (a.Live() ==> a.phase.rec == b.phase.rec)
  {
  }

  lemma NeutralKeepsCommitted(s: State, e: Event)
    requires LockInv(s) && Enabled(s, e) && Neutral(e)
    ensures Committed(Step(s, e)) == Committed(s)
  {
    NeutralKeepsBooks(s, e);
    assert Outstanding(Step(s, e).procs) == Outstanding(s.procs);
  }

  // ----- Writes -----

  /** A write moves its bytes from what is outstanding to what is on disk. */
  lemma WriteKeepsCommitted(s: State, e: Event)
    requires LockInv(s) && Enabled(s, e) && (e.NewArtifact? || e.Grow?)
    ensures Committed(Step(s, e)) == Committed(s)
  {
    var t := Step(s, e);
    assert RecordInv(s, e.p);
    TotalChange(Outstanding(s.procs), Outstanding(t.procs), e.p);
    if e.NewArtifact? {
      TotalAppend(Sizes(s.disk), Usage(e.bytes, 1));
      assert Sizes(t.disk) == Sizes(s.disk) + [Usage(e.bytes, 1)];
    } else {
      TotalChange(Sizes(s.disk), Sizes(t.disk), e.slot);
    }
  }

  function Amount(e: Event): Usage
    requires e.NewArtifact? || e.Grow?
  {
    Usage(e.bytes, if e.NewArtifact? then 1 else 0)
  }

  lemma WriterGrows(s: State, e: Event, w: Phase)
    requires LockInv(s) && Enabled(s, e) && (e.NewArtifact? || e.Grow?) && w.Walking? && WalkInv(s, w)
    ensures |Step(s, e).procs| == |s.procs| && |s.disk| <= |Step(s, e).disk|
    ensures forall i :: 0 <= i < |s.procs| ==> s.procs[i].written.AtMost(Step(s, e).procs[i].written)
    ensures Total(Grown(Step(s, e).procs, w.base)) == Total(Grown(s.procs, w.base)).Plus(Amount(e))
    ensures Charged(Step(s, e).procs, w.base) == Charged(s.procs, w.base)
  {
    var t := Step(s, e);
    assert RecordInv(s, e.p);
    TotalChange(Grown(s.procs, w.base), Grown(t.procs, w.base), e.p);
    assert Charged(t.procs, w.base) == Charged(s.procs, w.base);
  }

  lemma WriteIsSeen(s: State, e: Event, initial: set<nat>, visited: set<nat>)
    requires Enabled(s, e) && (e.NewArtifact? || e.Grow?) && forall i :: i in initial ==> i < |s.disk|
    ensures Total(Seen(Step(s, e).disk, initial, visited)).AtMost(Total(Seen(s.disk, initial, visited)).Plus(Amount(e)))
  {
    var t := Step(s, e);
    if e.NewArtifact? {
      assert |s.disk| !in initial;
      TotalAppend(Seen(s.disk, initial, visited), Usage(e.bytes, 1));
      assert Seen(t.disk, initial, visited) == Seen(s.disk, initial, visited) + [Usage(e.bytes, 1)];
    } else {
      TotalChange(Seen(s.disk, initial, visited), Seen(t.disk, initial, visited), e.slot);
    }
  }

  lemma WalkCarries(s: State, t: State, w: Phase, amount: Usage)
    requires w.Walking? && WalkInv(s, w) && |t.procs| == |s.procs| && |s.disk| <= |t.disk|
    requires forall i :: 0 <= i < |s.procs| ==> s.procs[i].written.AtMost(t.procs[i].written)
    requires Total(Grown(t.procs, w.base)) == Total(Grown(s.procs, w.base)).Plus(amount)
    requires Charged(t.procs, w.base) == Charged(s.procs, w.base)
    requires Total(Seen(t.disk, w.initial, w.visited)).AtMost(Total(Seen(s.disk, w.initial, w.visited)).Plus(amount))
    ensures WalkInv(t, w)
  {
  }

  /** A write adds no more to what the walk has seen than to what its writer has grown. */
  lemma WriteKeepsWalk(s: State, e: Event, w: Phase)
    requires LockInv(s) && Enabled(s, e) && (e.NewArtifact? || e.Grow?) && w.Walking? && WalkInv(s, w)
    ensures WalkInv(Step(s, e), w)
  {
    WriterGrows(s, e, w);
    WriteIsSeen(s, e, w.initial, w.visited);
    WalkCarries(s, Step(s, e), w, Amount(e));
  }

  // ----- Reservations that end -----

  predicate Ends(e: Event) {
    e.FinishRelease? || e.FailRelease? || e.Crash?
  }

  lemma EndKeepsBooks(s: State, e: Event)
    requires LockInv(s) && Enabled(s, e) && Ends(e)
    ensures var t := Step(s, e);
      && t.disk == s.disk && |t.procs| == |s.procs| && !t.procs[e.p].Live()
      && t.procs[e.p].written == s.procs[e.p].written
      && forall i :: 0 <= i < |s.procs| && i != e.p ==> t.procs[i] == s.procs[i]
  {
  }

  lemma EndShrinksCommitted(s: State, e: Event)
    requires LockInv(s) && Enabled(s, e) && Ends(e)
    ensures Committed(Step(s, e)).AtMost(Committed(s))
  {
    EndKeepsBooks(s, e);
    TotalMonotone(Outstanding(Step(s, e).procs), Outstanding(s.procs));
  }

  lemma EndKeepsWalk(s: State, e: Event, w: Phase)
    requires LockInv(s) && Enabled(s, e) && Ends(e) && w.Walking? && WalkInv(s, w)
    ensures WalkInv(Step(s, e), w)
  {
    var t := Step(s, e);
    EndKeepsBooks(s, e);
    assert RecordInv(s, e.p);
    assert Grown(t.procs, w.base) == Grown(s.procs, w.base);
    TotalMonotone(Charged(t.procs, w.base), Charged(s.procs, w.base));
  }

  // ----- Removed artifacts -----

  lemma RemovalShrinksCommitted(s: State, e: Event)
    requires Enabled(s, e) && e.RemoveArtifact?
    ensures Committed(Step(s, e)).AtMost(Committed(s))
  {
    TotalMonotone(Sizes(Step(s, e).disk), Sizes(s.disk));
  }

  lemma RemovalKeepsWalk(s: State, e: Event, w: Phase)
    requires Enabled(s, e) && e.RemoveArtifact? && w.Walking? && WalkInv(s, w)
    ensures WalkInv(Step(s, e), w)
  {
    TotalMonotone(Seen(Step(s, e).disk, w.initial, w.visited), Seen(s.disk, w.initial, w.visited));
  }

  // ----- The scan -----

  lemma CountedShrinks(s: State, e: Event, todo: set<nat>)
    requires LockInv(s) && Enabled(s, e) && !e.Return?
    ensures |Step(s, e).procs| == |s.procs|
    ensures Total(Counted(Step(s, e).procs, todo)).AtMost(Total(Counted(s.procs, todo)))
  {
    var t := Step(s, e);
    assert |t.procs| == |s.procs|;
    forall i | 0 <= i < |t.procs| ensures CountOf(t.procs[i], todo).AtMost(CountOf(s.procs[i], todo)) {
      CountShrinksAt(s, e, todo, i);
    }
    TotalMonotone(Counted(t.procs, todo), Counted(s.procs, todo));
  }

  /** Only the return of a grant makes a reservation live; its record and size never change. */
  lemma StaysLive(s: State, e: Event)
    requires !e.RemoveArtifact? && !e.Return? && Enabled(s, e)
    ensures var q, r := s.procs[e.p], Step(s, e).procs[e.p];
      r.Live() ==> q.Live() && r.phase.rec == q.phase.rec && r.reserved == q.reserved
  {
  }

  lemma CountShrinksAt(s: State, e: Event, todo: set<nat>, i: nat)
    requires Enabled(s, e) && !e.Return? && i < |s.procs|
    ensures |Step(s, e).procs| == |s.procs|
    ensures CountOf(Step(s, e).procs[i], todo).AtMost(CountOf(s.procs[i], todo))
  {
    if e.RemoveArtifact? || e.p != i {
      OthersStay(s, e, i);
    } else {
      StaysLive(s, e);
    }
  }

  /** Coming past a live record adds exactly its producer's reservation. */
  lemma ScanLiveCounts(s: State, e: Event)
    requires LockInv(s) && Enabled(s, e) && e.ScanLive?
    requires Total(Counted(s.procs, s.procs[e.p].phase.todo)).AtMost(s.procs[e.p].phase.active)
    ensures var w := Step(s, e).procs[e.p].phase;
      Total(Counted(Step(s, e).procs, w.todo)).AtMost(w.active)
  {
    var t := Step(s, e);
    var q := s.records[e.rec].holder.pid;
    assert HolderInv(s, e.rec) && RecordInv(s, q);
    var before, after := Counted(s.procs, s.procs[e.p].phase.todo), Counted(t.procs, t.procs[e.p].phase.todo);
    forall i | 0 <= i < |before| && i != q ensures before[i] == after[i] {
      assert RecordInv(s, i);
    }
    TotalChange(before, after, q);
  }

  /** Nobody live loses its record: only unheld records are unlinked. */
  lemma ScanStaleCounts(s: State, e: Event)
    requires LockInv(s) && Enabled(s, e) && e.ScanStale?
    requires Total(Counted(s.procs, s.procs[e.p].phase.todo)).AtMost(s.procs[e.p].phase.active)
    ensures var w := Step(s, e).procs[e.p].phase;
      Total(Counted(Step(s, e).procs, w.todo)).AtMost(w.active)
  {
    var t := Step(s, e);
    forall i | 0 <= i < |s.procs|
      ensures Counted(s.procs, s.procs[e.p].phase.todo)[i] == Counted(t.procs, t.procs[e.p].phase.todo)[i]
    {
      assert RecordInv(s, i);
    }
    assert Counted(s.procs, s.procs[e.p].phase.todo) == Counted(t.procs, t.procs[e.p].phase.todo);
  }

  lemma BeginScanCounts(s: State, e: Event)
    requires LockInv(s) && Enabled(s, e) && e.BeginScan?
    ensures Total(Counted(Step(s, e).procs, Step(s, e).procs[e.p].phase.todo)) == Usage(0, 0)
  {
    var t := Step(s, e);
    forall i | 0 <= i < |t.procs| ensures CountOf(t.procs[i], t.procs[e.p].phase.todo) == Usage(0, 0) {
      assert RecordInv(s, i);
    }
    TotalZero(Counted(t.procs, t.procs[e.p].phase.todo));
  }

  // ----- The walk -----

  lemma BeginWalkHolds(s: State, e: Event)
    requires LockInv(s) && Enabled(s, e) && e.BeginWalk?
    requires Total(Counted(s.procs, s.procs[e.p].phase.todo)).AtMost(s.procs[e.p].phase.active)
    ensures WalkInv(Step(s, e), Step(s, e).procs[e.p].phase)
  {
    var t := Step(s, e);
    var w := t.procs[e.p].phase;
    TotalZero(Seen(t.disk, w.initial, w.visited));
    assert Charged(t.procs, w.base) == Counted(s.procs, {});
  }

  lemma VisitHolds(s: State, e: Event)
    requires LockInv(s) && Enabled(s, e) && e.Visit? && WalkInv(s, s.procs[e.p].phase)
    ensures WalkInv(Step(s, e), Step(s, e).procs[e.p].phase)
  {
    var t := Step(s, e);
    var w, v := s.procs[e.p].phase, t.procs[e.p].phase;
    TotalChange(Seen(s.disk, w.initial, w.visited), Seen(t.disk, v.initial, v.visited), e.slot);
    assert Grown(t.procs, v.base) == Grown(s.procs, w.base);
    assert Charged(t.procs, v.base) == Charged(s.procs, w.base);
  }

  /** What a process has written during the walk and may still write fits its charge. */
  lemma ChargeCoversProcess(s: State, w: Phase, i: nat)
    requires LockInv(s) && w.Walking? && WalkInv(s, w) && i < |s.procs|
    ensures Less(s.procs[i].written, w.base[i]).Plus(StillOwed(s.procs[i])).AtMost(ChargeOf(s.procs[i], w.base[i]))
  {
    assert RecordInv(s, i);
    assert w.base[i].AtMost(s.procs[i].written);
  }

  lemma ChargesCoverProcesses(s: State, w: Phase)
    requires LockInv(s) && w.Walking? && WalkInv(s, w)
    ensures Total(Grown(s.procs, w.base)).Plus(Total(Outstanding(s.procs))).AtMost(w.active)
  {
    var grown, owed := Grown(s.procs, w.base), Outstanding(s.procs);
    forall i | 0 <= i < |s.procs| ensures Pairwise(grown, owed)[i].AtMost(Charged(s.procs, w.base)[i]) {
      ChargeCoversProcess(s, w, i);
    }
    TotalMonotone(Pairwise(grown, owed), Charged(s.procs, w.base));
    TotalSum(grown, owed);
  }

  /** When the walk is over, what was measured and what was reserved cover
    * everything on disk and everything still outstanding. */
  lemma WalkCoversCommitted(s: State, w: Phase)
    requires LockInv(s) && w.Walking? && WalkInv(s, w)
    requires forall i :: i in w.initial && i < |s.disk| && s.disk[i].present ==> i in w.visited
    ensures Committed(s).AtMost(w.measured.Plus(w.active))
  {
    ChargesCoverProcesses(s, w);
    assert Seen(s.disk, w.initial, w.visited) == Sizes(s.disk);
  }

  /** A granted request fits beside everything already committed. */
  lemma DecideHolds(s: State, e: Event)
    requires LockInv(s) && Enabled(s, e) && e.Decide? && WalkInv(s, s.procs[e.p].phase)
    ensures Committed(Step(s, e)).Plus(s.procs[e.p].phase.request).AtMost(Quota(s.policy))
  {
    WalkCoversCommitted(s, s.procs[e.p].phase);
    NeutralKeepsCommitted(s, e);
  }

  lemma ReturnSpendsRequest(s: State, e: Event)
    requires LockInv(s) && Enabled(s, e) && e.Return?
    ensures Committed(Step(s, e)) == Committed(s).Plus(s.procs[e.p].phase.request)
  {
    TotalChange(Outstanding(s.procs), Outstanding(Step(s, e).procs), e.p);
  }

  // ----- Everything together -----

  lemma CommittedOnlyGrowsByReturn(s: State, e: Event)
    requires LockInv(s) && Enabled(s, e) && !e.Return?
    ensures Committed(Step(s, e)).AtMost(Committed(s)) && Step(s, e).policy == s.policy
  {
    if Neutral(e) {
      NeutralKeepsCommitted(s, e);
    } else if Ends(e) {
      EndShrinksCommitted(s, e);
    } else if e.RemoveArtifact? {
      RemovalShrinksCommitted(s, e);
    } else {
      WriteKeepsCommitted(s, e);
    }
  }

  lemma OthersKeepWalk(s: State, e: Event, o: nat)
    requires LockInv(s) && Enabled(s, e) && s.capacity == Process(o) && o < |s.procs|
    requires s.procs[o].phase.Walking? && WalkInv(s, s.procs[o].phase) && (e.RemoveArtifact? || e.p != o)
    ensures WalkInv(Step(s, e), s.procs[o].phase)
  {
    if e.RemoveArtifact? {
      RemovalKeepsWalk(s, e, s.procs[o].phase);
    } else if Ends(e) {
      EndKeepsWalk(s, e, s.procs[o].phase);
    } else if e.NewArtifact? || e.Grow? {
      WriteKeepsWalk(s, e, s.procs[o].phase);
    } else {
      assert e.Restart?;
      NeutralKeepsBooks(s, e);
      assert Charged(Step(s, e).procs, s.procs[o].phase.base) == Charged(s.procs, s.procs[o].phase.base);
      assert Grown(Step(s, e).procs, s.procs[o].phase.base) == Grown(s.procs, s.procs[o].phase.base);
    }
  }

  lemma OthersKeepSection(s: State, e: Event, o: nat)
    requires LockInv(s) && SectionInv(s) && Enabled(s, e) && s.capacity == Process(o) && o < |s.procs|
    requires e.RemoveArtifact? || e.p != o
    ensures SectionInv(Step(s, e))
  {
    assert s.procs[o].InSection();
    assert Step(s, e).capacity == s.capacity;
    assert Step(s, e).procs[o] == s.procs[o];
    assert !e.Return?;
    CommittedOnlyGrowsByReturn(s, e);
    if s.procs[o].phase.Scanning? {
      CountedShrinks(s, e, s.procs[o].phase.todo);
    } else if s.procs[o].phase.Walking? {
      OthersKeepWalk(s, e, o);
    }
  }

  lemma ScanStepKeepsSection(s: State, e: Event)
    requires LockInv(s) && SectionInv(s) && Enabled(s, e) && (e.ScanLive? || e.ScanStale?)
    ensures SectionInv(Step(s, e))
  {
    assert AtSection(s, e.p);
    if e.ScanLive? {
      ScanLiveCounts(s, e);
    } else {
      ScanStaleCounts(s, e);
    }
  }

  lemma WalkStepKeepsSection(s: State, e: Event)
    requires LockInv(s) && SectionInv(s) && Enabled(s, e) && (e.BeginWalk? || e.Visit?)
    ensures SectionInv(Step(s, e))
  {
    assert AtSection(s, e.p);
    if e.BeginWalk? {
      BeginWalkHolds(s, e);
    } else {
      VisitHolds(s, e);
    }
  }

  lemma RecordStepKeepsSection(s: State, e: Event)
    requires LockInv(s) && SectionInv(s) && Enabled(s, e) && (e.CreateRecord? || e.LockRecord? || e.WriteRecord?)
    ensures SectionInv(Step(s, e))
  {
    assert AtSection(s, e.p);
    NeutralKeepsCommitted(s, e);
  }

  lemma OwnStepKeepsSection(s: State, e: Event)
    requires LockInv(s) && SectionInv(s) && Enabled(s, e) && !e.RemoveArtifact? && s.procs[e.p].InSection()
    ensures SectionInv(Step(s, e))
  {
    if e.ScanLive? || e.ScanStale? {
      ScanStepKeepsSection(s, e);
    } else if e.BeginWalk? || e.Visit? {
      WalkStepKeepsSection(s, e);
    } else if e.CreateRecord? || e.LockRecord? || e.WriteRecord? {
      RecordStepKeepsSection(s, e);
    } else if e.Decide? {
      DecideHolds(s, e);
    }
  }

  lemma StepKeepsSectionInv(s: State, e: Event)
    requires LockInv(s) && SectionInv(s) && Enabled(s, e)
    ensures SectionInv(Step(s, e))
  {
    if !e.RemoveArtifact? && s.procs[e.p].InSection() {
      OwnStepKeepsSection(s, e);
    } else if s.capacity.Process? {
      OthersKeepSection(s, e, s.capacity.pid);
    } else if e.BeginScan? {
      BeginScanCounts(s, e);
    }
  }

  lemma StepKeepsQuota(s: State, e: Event)
    requires LockInv(s) && SectionInv(s) && QuotaInv(s) && Enabled(s, e)
    ensures QuotaInv(Step(s, e))
  {
    if e.Return? {
      ReturnSpendsRequest(s, e);
    } else {
      CommittedOnlyGrowsByReturn(s, e);
      OnlyReturnMakesLive(s, e);
    }
  }

  lemma OnlyReturnMakesLive(s: State, e: Event)
    requires LockInv(s) && Enabled(s, e) && !e.Return?
    ensures AnyLive(Step(s, e)) ==> AnyLive(s)
  {
    var t := Step(s, e);
    if AnyLive(t) {
      var p :| 0 <= p < |t.procs| && t.procs[p].Live();
      if e.RemoveArtifact? || e.p != p {
        OthersStay(s, e, p);
      } else {
        StaysLive(s, e);
      }
      assert s.procs[p].Live();
    }
  }

  lemma StepKeepsInv(s: State, e: Event)
    requires LockInv(s) && SectionInv(s) && QuotaInv(s) && Enabled(s, e)
    ensures LockInv(Step(s, e)) && SectionInv(Step(s, e)) && QuotaInv(Step(s, e)) && Step(s, e).policy == s.policy
  {
    StepKeepsLockInv(s, e);
    StepKeepsSectionInv(s, e);
    StepKeepsQuota(s, e);
    PolicyStays(s, e);
  }

  lemma PolicyStays(s: State, e: Event)
    requires Enabled(s, e)
    ensures Step(s, e).policy == s.policy
  {
  }

  lemma {:induction false} RunKeepsInv(states: seq<State>, events: seq<Event>, i: nat)
    requires Run(states, events) && i < |states|
    ensures LockInv(states[i]) && SectionInv(states[i]) && QuotaInv(states[i])
    ensures states[i].policy == states[0].policy
  {
    if i > 0 {
      RunKeepsInv(states, events, i - 1);
      StepKeepsInv(states[i - 1], events[i - 1]);
    } else {
      assert !AnyLive(states[0]);
    }
  }

  // ----- What a reader of the code is promised -----

  /** No schedule over-commits: while a reservation is live, what is on disk and
    * what live producers may still add to it stay within the quota. */
  lemma NoScheduleOvercommits(states: seq<State>, events: seq<Event>, i: nat)
    requires Run(states, events) && i < |states| && AnyLive(states[i])
    ensures Committed(states[i]).AtMost(Usage(states[0].policy.maxBytes, states[0].policy.maxFiles))
  {
    RunKeepsInv(states, events, i);
  }

  /** A live producer's record is always there, complete, and locked by it. */
  lemma LiveRecordsStayLocked(states: seq<State>, events: seq<Event>, i: nat, p: nat)
    requires Run(states, events) && i < |states| && p < |states[i].procs| && states[i].procs[p].Live()
    ensures var r := states[i].procs[p].phase.rec;
      r < |states[i].records| && states[i].records[r] == Record(true, Reserves(states[i].procs[p].reserved), Process(p))
  {
    RunKeepsInv(states, events, i);
    assert RecordInv(states[i], p);
  }

  /** A record that a scan finds locked belongs to a live producer and is complete;
    * one that it unlinks belongs to nobody live. */
  lemma ScanNeverSeesHalfARecord(states: seq<State>, events: seq<Event>, i: nat, p: nat, r: nat)
    requires Run(states, events) && i < |states| && p < |states[i].procs|
    requires states[i].procs[p].phase.Scanning? && r in states[i].procs[p].phase.todo
    ensures r < |states[i].records|
    ensures states[i].records[r].holder.Process? ==>
      exists q :: 0 <= q < |states[i].procs| && states[i].procs[q].Live() && states[i].procs[q].phase.rec == r
                  && states[i].records[r].body == Reserves(states[i].procs[q].reserved)
    ensures states[i].records[r].holder.Nobody? ==>
      forall q :: 0 <= q < |states[i].procs| && states[i].procs[q].Live() ==> states[i].procs[q].phase.rec != r
  {
    RunKeepsInv(states, events, i);
    var s := states[i];
    assert RecordInv(s, p);
    if s.records[r].holder.Process? {
      var q := s.records[r].holder.pid;
      assert HolderInv(s, r) && RecordInv(s, q);
      assert !s.procs[q].InSection() || q == p;
      assert s.procs[q].Live();
    } else {
      forall q | 0 <= q < |s.procs| && s.procs[q].Live() ensures s.procs[q].phase.rec != r {
        assert RecordInv(s, q);
      }
    }
  }

  /** The sum a finished scan reports is at least the live reservations. */
  lemma ScanMissesNoReservation(states: seq<State>, events: seq<Event>, i: nat)
    requires Run(states, events) && i < |events| && events[i].BeginWalk?
    ensures var s := states[i];
      Total(seq(|s.procs|, q requires 0 <= q < |s.procs| => if s.procs[q].Live() then s.procs[q].reserved else Usage(0, 0)))
        .AtMost(s.procs[events[i].p].phase.active)
  {
    RunKeepsInv(states, events, i);
    var s := states[i];
    assert Counted(s.procs, {}) ==
      seq(|s.procs|, q requires 0 <= q < |s.procs| => if s.procs[q].Live() then s.procs[q].reserved else Usage(0, 0));
  }

  // ----- Nothing is leaked -----

  predicate Absent(s: State, r: nat) { r < |s.records| && !s.records[r].present }

  lemma StaysAbsent(s: State, e: Event, r: nat)
    requires Enabled(s, e) && Absent(s, r)
    ensures Absent(Step(s, e), r)
  {
  }

  lemma {:induction false} AbsentForGood(states: seq<State>, events: seq<Event>, i: nat, j: nat, r: nat)
    requires Run(states, events) && i <= j < |states| && Absent(states[i], r)
    ensures Absent(states[j], r)
    decreases j
  {
    if i < j {
      AbsentForGood(states, events, i, j - 1, r);
      StaysAbsent(states[j - 1], events[j - 1], r);
    }
  }

  lemma StaleIsUnlinked(s: State, e: Event)
    requires Enabled(s, e) && e.ScanStale?
    ensures Absent(Step(s, e), e.rec)
  {
  }

  /** A record that a scan comes past unlocked is gone from then on. */
  lemma StaleRecordsAreGone(states: seq<State>, events: seq<Event>, i: nat, j: nat)
    requires Run(states, events) && i < j < |states| && events[i].ScanStale?
    ensures Absent(states[j], events[i].rec)
  {
    StaleIsUnlinked(states[i], events[i]);
    AbsentForGood(states, events, i + 1, j, events[i].rec);
  }

  lemma ReleaseUnlinks(s: State, e: Event)
    requires Enabled(s, e) && e.FinishRelease?
    ensures Absent(Step(s, e), s.procs[e.p].phase.rec)
  {
  }

  /** A released reservation's own record is gone from then on. */
  lemma ReleasedRecordsAreGone(states: seq<State>, events: seq<Event>, i: nat, j: nat)
    requires Run(states, events) && i < j < |states| && events[i].FinishRelease?
    ensures Absent(states[j], states[i].procs[events[i].p].phase.rec)
  {
    ReleaseUnlinks(states[i], events[i]);
    AbsentForGood(states, events, i + 1, j, states[i].procs[events[i].p].phase.rec);
  }

  predicate SoloSegment(states: seq<State>, events: seq<Event>, p: nat, free: nat) {
    && |states| == |events| + 1
    && forall i :: 0 <= i < |events| ==>
         && Enabled(states[i], events[i]) && !events[i].RemoveArtifact? && events[i].p == p
         && (events[i].Decide? ==> events[i].available == free)
         && states[i + 1] == Step(states[i], events[i])
  }

  /** `p`, acting alone and seeing `free` bytes free when it decides, can take the system
    * from `s` to `t`. */
  ghost predicate Reaches(s: State, t: State, p: nat, free: nat) {
    exists states: seq<State>, events: seq<Event> ::
      SoloSegment(states, events, p, free) && states[0] == s && states[|states| - 1] == t
  }

  lemma ReachesStep(s: State, e: Event, free: nat)
    requires Enabled(s, e) && !e.RemoveArtifact?
    requires e.Decide? ==> e.available == free
    ensures Reaches(s, Step(s, e), e.p, free)
  {
    assert SoloSegment([s, Step(s, e)], [e], e.p, free);
  }

  lemma ReachesSelf(s: State, p: nat, free: nat)
    ensures Reaches(s, s, p, free)
  {
    assert SoloSegment([s], [], p, free);
  }

  lemma ReachesTransitive(s: State, t: State, u: State, p: nat, free: nat)
    requires Reaches(s, t, p, free) && Reaches(t, u, p, free)
    ensures Reaches(s, u, p, free)
  {
    var first: seq<State>, firstEvents: seq<Event> :|
      SoloSegment(first, firstEvents, p, free) && first[0] == s && first[|first| - 1] == t;
    var second: seq<State>, secondEvents: seq<Event> :|
      SoloSegment(second, secondEvents, p, free) && second[0] == t && second[|second| - 1] == u;
    var states, events := first + second[1..], firstEvents + secondEvents;
    forall i | 0 <= i < |events|
      ensures Enabled(states[i], events[i]) && !events[i].RemoveArtifact? && events[i].p == p
              && states[i + 1] == Step(states[i], events[i])
    {
      if i >= |firstEvents| {
        assert states[i] == second[i - |firstEvents|];
        assert states[i + 1] == second[i + 1 - |firstEvents|];
      }
    }
    assert SoloSegment(states, events, p, free);
  }

  /** Nobody holds a record's lock. */
  predicate NoHolders(s: State) {
    forall r :: 0 <= r < |s.records| ==> s.records[r].holder.Nobody?
  }

  /** A scan in a quiet system unlinks everything it comes past and counts nothing. */
  lemma {:induction false} ScanClears(s: State, p: nat, free: nat) returns (t: State)
    requires p < |s.procs| && s.procs[p].phase.Scanning? && s.procs[p].phase.active == Usage(0, 0) && NoHolders(s)
    requires forall r :: r in s.procs[p].phase.todo ==> r < |s.records|
    ensures Reaches(s, t, p, free) && |t.records| == |s.records| && NoHolders(t)
    ensures t == s.(records := t.records, procs := s.procs[p := s.procs[p].(phase := s.procs[p].phase.(todo := {}))])
    ensures forall r :: 0 <= r < |s.records| ==>
      (t.records[r].present <==> s.records[r].present && r !in s.procs[p].phase.todo)
    decreases s.procs[p].phase.todo
  {
    if s.procs[p].phase.todo == {} {
      ReachesSelf(s, p, free);
      t := s;
    } else {
      var r :| r in s.procs[p].phase.todo;
      var e := ScanStale(p, r);
      ReachesStep(s, e, free);
      t := ScanClears(Step(s, e), p, free);
      ReachesTransitive(s, Step(s, e), t, p, free);
    }
  }

  /** A walk has measured what it has visited. */
  predicate MeasuredSoFar(s: State, p: nat) {
    && p < |s.procs| && s.procs[p].phase.Walking? && s.procs[p].phase.initial == PresentArtifacts(s)
    && s.procs[p].phase.visited <= s.procs[p].phase.initial
    && s.procs[p].phase.measured == Total(Seen(s.disk, s.procs[p].phase.initial, s.procs[p].phase.visited))
  }

  /** One more visit adds the artifact's size, and does not overflow. */
  lemma OneMoreSeen(disk: seq<Artifact>, initial: set<nat>, visited: set<nat>, i: nat)
    requires i < |disk| && i in initial && i !in visited && Total(Sizes(disk)).FitsU64()
    ensures
      var sum := CheckedAdd(Total(Seen(disk, initial, visited)), Size(disk[i]));
      sum.Value? && sum.value == Total(Seen(disk, initial, visited + {i}))
  {
    TotalChange(Seen(disk, initial, visited), Seen(disk, initial, visited + {i}), i);
    TotalMonotone(Seen(disk, initial, visited + {i}), Sizes(disk));
  }

  /** The state after visiting `i`. */
  function Visited(s: State, p: nat, i: nat, measured: Usage): State
    requires p < |s.procs| && s.procs[p].phase.Walking?
  {
    var w := s.procs[p].phase;
    s.(procs := s.procs[p := s.procs[p].(phase := w.(visited := w.visited + {i}, measured := measured))])
  }

  lemma VisitIsEnabled(s: State, p: nat, i: nat)
    requires MeasuredSoFar(s, p) && Total(Sizes(s.disk)).FitsU64()
    requires i in s.procs[p].phase.initial && i !in s.procs[p].phase.visited
    ensures Enabled(s, Visit(p, i))
    ensures var w := s.procs[p].phase;
      Step(s, Visit(p, i)) == Visited(s, p, i, Total(Seen(s.disk, w.initial, w.visited + {i})))
  {
    var w := s.procs[p].phase;
    assert i in PresentArtifacts(s);
    OneMoreSeen(s.disk, w.initial, w.visited, i);
  }

  lemma VisitMeasures(s: State, p: nat, i: nat)
    requires MeasuredSoFar(s, p) && i in s.procs[p].phase.initial
    ensures var w := s.procs[p].phase;
      MeasuredSoFar(Visited(s, p, i, Total(Seen(s.disk, w.initial, w.visited + {i}))), p)
  {
  }

  lemma VisitReaches(s: State, p: nat, i: nat, free: nat) returns (next: State)
    requires MeasuredSoFar(s, p) && Total(Sizes(s.disk)).FitsU64()
    requires i in s.procs[p].phase.initial && i !in s.procs[p].phase.visited
    ensures Reaches(s, next, p, free) && MeasuredSoFar(next, p)
    ensures var w := s.procs[p].phase;
      next == Visited(s, p, i, Total(Seen(s.disk, w.initial, w.visited + {i})))
  {
    VisitIsEnabled(s, p, i);
    VisitMeasures(s, p, i);
    ReachesStep(s, Visit(p, i), free);
    next := Step(s, Visit(p, i));
  }

  /** A walk in a quiet system measures exactly what is on disk. */
  lemma {:induction false} WalkMeasures(s: State, p: nat, free: nat) returns (t: State)
    requires MeasuredSoFar(s, p) && Total(Sizes(s.disk)).FitsU64()
    ensures Reaches(s, t, p, free)
    ensures t == s.(procs := s.procs[p := s.procs[p].(phase := s.procs[p].phase.(visited := PresentArtifacts(s), measured := Total(Sizes(s.disk))))])
    decreases s.procs[p].phase.initial - s.procs[p].phase.visited
  {
    var w := s.procs[p].phase;
    if w.initial <= w.visited {
      assert w.visited == w.initial;
      assert Seen(s.disk, w.initial, w.visited) == Sizes(s.disk);
      ReachesSelf(s, p, free);
      t := s;
    } else {
      var i :| i in w.initial && i !in w.visited;
      var next := VisitReaches(s, p, i, free);
      assert PresentArtifacts(next) == PresentArtifacts(s);
      t := WalkMeasures(next, p, free);
      ReachesTransitive(s, next, t, p, free);
    }
  }

  lemma GrantedReachesLock(s: State, p: nat, free: nat) returns (t: State)
    requires p < |s.procs| && s.procs[p].phase.Admitted?
    ensures Reaches(s, t, p, free) && |t.procs| == |s.procs| && t.disk == s.disk
    ensures t.procs[p].phase == RecordLocked(s.procs[p].phase.request, |s.records|)
    ensures t.records == s.records + [Record(true, Empty, Process(p))]
  {
    var s1 := Step(s, CreateRecord(p));
    t := Step(s1, LockRecord(p));
    ReachesStep(s, CreateRecord(p), free);
    ReachesStep(s1, LockRecord(p), free);
    ReachesTransitive(s, s1, t, p, free);
  }

  lemma LockedReachesReturn(s: State, p: nat, free: nat) returns (t: State)
    requires p < |s.procs| && s.procs[p].phase.RecordLocked? && s.procs[p].phase.rec < |s.records|
    ensures Reaches(s, t, p, free) && |t.procs| == |s.procs| && t.disk == s.disk
    ensures t.procs[p].phase == Producing(s.procs[p].phase.rec) && t.procs[p].reserved == s.procs[p].phase.request
    ensures
      var r := s.procs[p].phase.rec;
      t.records == s.records[r := s.records[r].(body := Reserves(s.procs[p].phase.request))]
  {
    var s1 := Step(s, WriteRecord(p));
    t := Step(s1, Return(p));
    ReachesStep(s, WriteRecord(p), free);
    ReachesStep(s1, Return(p), free);
    ReachesTransitive(s, s1, t, p, free);
  }

  lemma GrantedReachesReturn(s: State, p: nat, free: nat) returns (t: State)
    requires p < |s.procs| && s.procs[p].phase.Admitted?
    ensures Reaches(s, t, p, free) && |t.procs| == |s.procs| && t.disk == s.disk
    ensures t.procs[p].phase.Producing? && t.procs[p].reserved == s.procs[p].phase.request
    ensures t.records == s.records + [Record(true, Reserves(s.procs[p].phase.request), Process(p))]
    ensures t.procs[p].phase.rec == |s.records|
  {
    var s1 := GrantedReachesLock(s, p, free);
    t := LockedReachesReturn(s1, p, free);
    ReachesTransitive(s, s1, t, p, free);
  }

  lemma QuietHasNoHolders(s: State)
    requires LockInv(s) && s.capacity.Nobody? && !AnyLive(s)
    ensures NoHolders(s)
  {
    forall r | 0 <= r < |s.records| ensures s.records[r].holder.Nobody? {
      assert HolderInv(s, r);
    }
  }

  lemma ReachesWalk(s: State, p: nat, request: Usage, free: nat) returns (t: State)
    requires LockInv(s) && s.capacity.Nobody? && !AnyLive(s) && p < |s.procs| && s.procs[p].phase.Idle?
    ensures Reaches(s, t, p, free) && |t.procs| == |s.procs| && t.disk == s.disk && t.policy == s.policy
    ensures t.procs[p].phase == Walking(request, Usage(0, 0), PresentArtifacts(s), {}, Usage(0, 0), WrittenNow(t.procs))
    ensures forall r :: 0 <= r < |t.records| ==> !t.records[r].present
  {
    QuietHasNoHolders(s);
    var s1 := Step(s, BeginScan(p, request));
    ReachesStep(s, BeginScan(p, request), free);
    var s2 := ScanClears(s1, p, free);
    ReachesTransitive(s, s1, s2, p, free);
    t := Step(s2, BeginWalk(p));
    ReachesStep(s2, BeginWalk(p), free);
    ReachesTransitive(s, s2, t, p, free);
    assert WrittenNow(t.procs) == WrittenNow(s2.procs);
  }

  /** Crashed and released reservations never keep capacity: in any reachable
    * state without live reservations, a process acting alone and seeing `free` bytes free is
    * granted whatever fits beside what is really on disk and leaves the minimum free, and
    * its own record is then the only one there. */
  lemma DeadReservationsFreeTheirCapacity(
    states: seq<State>, events: seq<Event>, s: State, p: nat, request: Usage, free: nat)
      returns (t: State)
    requires Run(states, events) && s == states[|states| - 1]
    requires s.capacity.Nobody? && !AnyLive(s) && p < |s.procs| && s.procs[p].phase.Idle?
    requires Total(Sizes(s.disk)).Plus(request).AtMost(Quota(s.policy))
    requires s.policy.minFreeBytes + request.bytes <= free
    ensures Reaches(s, t, p, free) && |t.procs| == |s.procs| && t.disk == s.disk
    ensures t.procs[p].phase.Producing? && t.procs[p].reserved == request
    ensures forall r :: 0 <= r < |t.records| ==> (t.records[r].present <==> r == t.procs[p].phase.rec)
  {
    RunKeepsInv(states, events, |events|);
    var s1 := ReachesWalk(s, p, request, free);
    var w := s1.procs[p].phase;
    TotalZero(Seen(s1.disk, w.initial, w.visited));
    var s2 := WalkMeasures(s1, p, free);
    ReachesTransitive(s, s1, s2, p, free);
    var e := Decide(p, free);
    var s3 := Step(s2, e);
    ReachesStep(s2, e, free);
    ReachesTransitive(s, s2, s3, p, free);
    t := GrantedReachesReturn(s3, p, free);
    ReachesTransitive(s, s3, t, p, free);
  }

  // ----- Nothing is counted twice -----

  /** The process has no more use for record `r`, or for artifact `slot`, in its present scan
    * or walk. */
  predicate DoneWith(s: State, p: nat, walks: bool, k: nat) {
    p < |s.procs| &&
    if walks then s.procs[p].phase.Walking? ==> k in s.procs[p].phase.visited
    else s.procs[p].phase.Scanning? ==> k !in s.procs[p].phase.todo
  }

  predicate StartsOver(e: Event, p: nat, walks: bool) {
    if walks then e == BeginWalk(p) else e.BeginScan? && e.p == p
  }

  predicate Takes(e: Event, p: nat, walks: bool, k: nat) { e == if walks then Visit(p, k) else ScanLive(p, k) }

  lemma StaysDone(s: State, e: Event, p: nat, walks: bool, k: nat)
    requires Enabled(s, e) && !StartsOver(e, p, walks) && (DoneWith(s, p, walks, k) || Takes(e, p, walks, k))
    ensures DoneWith(Step(s, e), p, walks, k)
  {
    if !e.RemoveArtifact? && e.p == p {
      assert |Step(s, e).procs| == |s.procs|;
    } else {
      OthersStay(s, e, p);
    }
  }

  lemma DoneIsNotTaken(s: State, p: nat, walks: bool, k: nat)
    requires DoneWith(s, p, walks, k)
    ensures !Enabled(s, if walks then Visit(p, k) else ScanLive(p, k))
  {
  }

  /** One step of a run, without its definition. */
  predicate KeepsDone(states: seq<State>, events: seq<Event>, i: nat, p: nat, walks: bool, k: nat) {
    i < |events| && i + 1 < |states| && !StartsOver(events[i], p, walks)
    && (DoneWith(states[i], p, walks, k) || Takes(events[i], p, walks, k)) ==>
      DoneWith(states[i + 1], p, walks, k)
  }

  lemma {:induction false} DoneUntil(states: seq<State>, events: seq<Event>, i: nat, j: nat, p: nat, walks: bool, k: nat)
    requires i < j < |states| == |events| + 1 && Takes(events[i], p, walks, k)
    requires forall n: nat :: KeepsDone(states, events, n, p, walks, k)
    requires forall n :: i < n < j ==> !StartsOver(events[n], p, walks)
    ensures DoneWith(states[j], p, walks, k)
    decreases j
  {
    assert KeepsDone(states, events, j - 1, p, walks, k);
    if i < j - 1 {
      DoneUntil(states, events, i, j - 1, p, walks, k);
    }
  }

  /** In every run, a process that counts one record, or measures one artifact, twice has begun
    * a new scan, or walk, in between. */
  lemma NothingIsCountedTwice(states: seq<State>, events: seq<Event>, i: nat, j: nat, p: nat, walks: bool, k: nat)
    returns (n: nat)
    requires Run(states, events) && i < j < |events|
    requires Takes(events[i], p, walks, k) && Takes(events[j], p, walks, k)
    ensures i < n < j && StartsOver(events[n], p, walks)
  {
    forall m: nat ensures KeepsDone(states, events, m, p, walks, k) {
      if m < |events| && !StartsOver(events[m], p, walks)
        && (DoneWith(states[m], p, walks, k) || Takes(events[m], p, walks, k))
      {
        StaysDone(states[m], events[m], p, walks, k);
      }
    }
    if forall m :: i < m < j ==> !StartsOver(events[m], p, walks) {
      DoneUntil(states, events, i, j, p, walks, k);
      DoneIsNotTaken(states[j], p, walks, k);
      assert false;
    }
    n :| i < n < j && StartsOver(events[n], p, walks);
  }
}
