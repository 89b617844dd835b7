/** Lease owners and pruners, interleaved.
  *
  * An owner makes a private directory below `transient/`, locks it, writes the
  * lease marker, and only then puts files into it.  Any number of pruners look
  * at the directories, list files as candidates and unlink them, one system call
  * at a time.  Owners and pruners crash at any point; a crash releases locks.
  *
  * Directory names are never reused, so a directory is an index.  Every
  * directory that a run will create is there from the start as `Unborn`.
  */
module LeaseProtocol {
  import opened Retention

  type FileId = nat
  /** The lease marker is one of the files of its directory. */
  const MARKER: FileId := 0

  datatype Owner =
    | Unborn
    | MadeDirectory
    | HoldsLock
    | Active
    | Removing
    | Finished
    | Crashed(removing: bool)

  datatype Lock = Free | ByOwner | ByPruner(pruner: nat)

  datatype Moment = Never | At(time: nat)

  /** `quarantined`: renamed by a pruner, so not found under its own name. */
  datatype File = File(modified: nat, quarantined: bool)

  /** `marked` is history: when the owner wrote the marker. */
  datatype Lease = Lease(owner: Owner, lock: Lock, files: map<FileId, File>, marked: Moment)
  {
    predicate MarkerVisible() {
      MARKER in files && !files[MARKER].quarantined
    }

    /** The owner is alive and has not begun to remove the directory. */
    predicate InUse() {
      owner.MadeDirectory? || owner.HoldsLock? || owner.Active?
    }

    predicate Alive() {
      InUse() || owner.Removing?
    }

    /** The owner got as far as writing its marker, and may be gone by now. */
    predicate WasActive() {
      owner.Active? || owner.Removing? || owner.Finished? || owner.Crashed?
    }
  }

  datatype Candidate = Candidate(dir: nat, file: FileId, modified: nat)

  datatype Phase =
    | Idle
    | InspectSawMarker(dir: nat, marker: nat)
    | InspectLocked(dir: nat, marker: nat)
    | Opened(target: Candidate)
    | GuardSawMarker(target: Candidate, marker: nat)
    | GuardLocked(target: Candidate, marker: nat)
    | Guarded(target: Candidate)
    | Isolated(target: Candidate)

  datatype Pruner = Pruner(phase: Phase, inventoryTime: nat, verdicts: map<nat, DirectoryRetention>, candidates: set<Candidate>)

  datatype State = State(now: nat, leases: seq<Lease>, pruners: seq<Pruner>)

  datatype Event =
    | Tick(seconds: nat)
    // owners
    | MakeDirectory(dir: nat)
    | TakeLock(dir: nat)
    | WriteMarker(dir: nat)
    | WriteFile(dir: nat, file: FileId)
    | DeleteOwnFile(dir: nat, file: FileId)
    | BeginDrop(dir: nat)
    | DropFile(dir: nat, file: FileId)
    | FinishDrop(dir: nat)
    | CrashOwner(dir: nat)
    // pruners: inventory
    | BeginInventory(p: nat)
    | InspectNoMarker(p: nat, dir: nat)
    | InspectMarker(p: nat, dir: nat)
    | InspectTryLock(p: nat)
    | InspectDone(p: nat)
    | ListFile(p: nat, dir: nat, file: FileId)
    // pruners: deletion of one candidate
    | OpenCandidate(p: nat, target: Candidate)
    | GuardNoMarker(p: nat)
    | GuardMarker(p: nat)
    | GuardTryLock(p: nat)
    | GuardDone(p: nat)
    | Isolate(p: nat)
    | Unlink(p: nat)
    | RestoreIsolated(p: nat)
    | Abandon(p: nat)               // an error return, or a crash

  // ----- Small steps -----

  function SetLease(s: State, d: nat, l: Lease): State
    requires d < |s.leases|
  {
    s.(leases := s.leases[d := l])
  }

  function SetPhase(s: State, p: nat, phase: Phase): State
    requires p < |s.pruners|
  {
    s.(pruners := s.pruners[p := s.pruners[p].(phase := phase)])
  }

  function Unlock(l: Lease, p: nat): Lease {
    if l.lock == ByPruner(p) then l.(lock := Free) else l
  }

  /** Closing its descriptors releases whatever a pruner had locked. */
  function ReleaseAll(s: State, p: nat): State {
    s.(leases := seq(|s.leases|, d requires 0 <= d < |s.leases| => Unlock(s.leases[d], p)))
  }

  /** The file a candidate names is there, with the modification time it was listed with.
    * A file that some pruner has renamed can be listed and opened under its new name, so
    * being quarantined makes no difference here. */
  predicate Unchanged(s: State, c: Candidate) {
    && c.dir < |s.leases|
    && c.file in s.leases[c.dir].files
    && s.leases[c.dir].files[c.file].modified == c.modified
  }

  predicate IsPrunerEvent(e: Event) {
    e.BeginInventory? || e.InspectNoMarker? || e.InspectMarker? || e.InspectTryLock? || e.InspectDone? ||
    e.ListFile? || e.OpenCandidate? || e.GuardNoMarker? || e.GuardMarker? || e.GuardTryLock? || e.GuardDone? ||
    e.Isolate? || e.Unlink? || e.RestoreIsolated? || e.Abandon?
  }

  predicate IsOwnerEvent(e: Event) {
    !IsPrunerEvent(e) && !e.Tick?
  }

  predicate Enabled(s: State, e: Event) {
    if e.Tick? then
      true
    else if IsOwnerEvent(e) then
      e.dir < |s.leases| && OwnerEnabled(s.leases[e.dir], e)
    else
      e.p < |s.pruners| && PrunerEnabled(s, s.pruners[e.p], e)
  }

  predicate OwnerEnabled(l: Lease, e: Event)
    requires IsOwnerEvent(e)
  {
    match e
    case MakeDirectory(_) => l.owner.Unborn?
    case TakeLock(_) => l.owner.MadeDirectory? && l.lock.Free?
    case WriteMarker(_) => l.owner.HoldsLock?
    case WriteFile(_, file) => l.owner.Active? && file != MARKER
    case DeleteOwnFile(_, file) => l.owner.Active? && file != MARKER
    case BeginDrop(_) => l.owner.Active?
    case DropFile(_, _) => l.owner.Removing?
    case FinishDrop(_) => l.owner.Removing?
    case CrashOwner(_) => l.Alive()
  }

  function OwnerStep(l: Lease, e: Event, now: nat): Lease
    requires IsOwnerEvent(e) && OwnerEnabled(l, e)
  {
    match e
    case MakeDirectory(_) => l.(owner := MadeDirectory)
    case TakeLock(_) => l.(owner := HoldsLock, lock := ByOwner)
    case WriteMarker(_) => l.(owner := Active, files := l.files[MARKER := File(now, false)], marked := At(now))
    case WriteFile(_, file) => l.(files := l.files[file := File(now, false)])
    case DeleteOwnFile(_, file) => l.(files := l.files - {file})
    case BeginDrop(_) => l.(owner := Removing)
    case DropFile(_, file) => l.(files := l.files - {file})
    case FinishDrop(_) => l.(owner := Finished, lock := Free)
    case CrashOwner(_) => l.(owner := Crashed(l.owner.Removing?), lock := if l.lock.ByOwner? then Free else l.lock)
  }

  /** `classify` for a file inside a lease directory. */
  predicate ListsAsReclaimable(retention: DirectoryRetention, modified: nat, inventoryTime: nat) {
    Classify([TRANSIENT_DIRECTORY, "lease", "file"], retention, modified, inventoryTime).Reclaimable?
  }

  predicate PrunerEnabled(s: State, q: Pruner, e: Event)
    requires IsPrunerEvent(e)
  {
    match e
    case BeginInventory(_) => q.phase.Idle?
    case InspectNoMarker(_, d) => q.phase.Idle? && d < |s.leases| && !s.leases[d].owner.Unborn? && !s.leases[d].MarkerVisible()
    case InspectMarker(_, d) => q.phase.Idle? && d < |s.leases| && s.leases[d].MarkerVisible()
    case InspectTryLock(_) => q.phase.InspectSawMarker? && q.phase.dir < |s.leases|
    case InspectDone(_) => q.phase.InspectLocked? && q.phase.dir < |s.leases|
    case ListFile(_, d, f) =>
      && q.phase.Idle? && d in q.verdicts && d < |s.leases| && f in s.leases[d].files
      && ListsAsReclaimable(q.verdicts[d], s.leases[d].files[f].modified, q.inventoryTime)
    case OpenCandidate(_, c) => q.phase.Idle? && c in q.candidates && Unchanged(s, c)
    case GuardNoMarker(_) => q.phase.Opened? && q.phase.target.dir < |s.leases| && !s.leases[q.phase.target.dir].MarkerVisible()
    case GuardMarker(_) => q.phase.Opened? && q.phase.target.dir < |s.leases| && s.leases[q.phase.target.dir].MarkerVisible()
    case GuardTryLock(_) => q.phase.GuardSawMarker? && q.phase.target.dir < |s.leases|
    case GuardDone(_) => q.phase.GuardLocked? && q.phase.target.dir < |s.leases|
    case Isolate(_) => q.phase.Guarded? && Unchanged(s, q.phase.target)
    case Unlink(_) => q.phase.Isolated? && Unchanged(s, q.phase.target)
    case RestoreIsolated(_) => q.phase.Isolated? && q.phase.target.dir < |s.leases|
    case Abandon(_) => true
  }

  function PrunerStep(s: State, e: Event): State
    requires IsPrunerEvent(e) && Enabled(s, e)
  {
    var p := e.p;
    var q := s.pruners[p];
    match e
    case BeginInventory(_) =>
      s.(pruners := s.pruners[p := Pruner(Idle, s.now, map[], {})])
    case InspectNoMarker(_, d) =>
      s.(pruners := s.pruners[p := q.(verdicts := q.verdicts[d := InspectTransientLease(NoMarker)])])
    case InspectMarker(_, d) =>
      SetPhase(s, p, InspectSawMarker(d, s.leases[d].files[MARKER].modified))
    case InspectTryLock(_) =>
      var d := q.phase.dir;
      if s.leases[d].lock.Free? then
        SetPhase(SetLease(s, d, s.leases[d].(lock := ByPruner(p))), p, InspectLocked(d, q.phase.marker))
      else
        s.(pruners := s.pruners[p := q.(phase := Idle, verdicts := q.verdicts[d := InspectTransientLease(MarkerAndLockHeld)])])
    case InspectDone(_) =>
      var d := q.phase.dir;
      if s.leases[d].MarkerVisible() && s.leases[d].files[MARKER].modified == q.phase.marker then
        var r := InspectTransientLease(MarkerAndLockFree(q.phase.marker));
        ReleaseAll(s.(pruners := s.pruners[p := q.(phase := Idle, verdicts := q.verdicts[d := r])]), p)
      else
        ReleaseAll(SetPhase(s, p, Idle), p)
    case ListFile(_, d, f) =>
      var c := Candidate(d, f, s.leases[d].files[f].modified);
      s.(pruners := s.pruners[p := q.(candidates := q.candidates + {c})])
    case OpenCandidate(_, c) => SetPhase(s, p, Opened(c))
    case GuardNoMarker(_) => SetPhase(s, p, Guarded(q.phase.target))
    case GuardMarker(_) =>
      SetPhase(s, p, GuardSawMarker(q.phase.target, s.leases[q.phase.target.dir].files[MARKER].modified))
    case GuardTryLock(_) =>
      var d := q.phase.target.dir;
      if s.leases[d].lock.Free? then
        SetPhase(SetLease(s, d, s.leases[d].(lock := ByPruner(p))), p, GuardLocked(q.phase.target, q.phase.marker))
      else
        ReleaseAll(SetPhase(s, p, Idle), p)
    case GuardDone(_) =>
      var l := s.leases[q.phase.target.dir];
      if && l.MarkerVisible() && l.files[MARKER].modified == q.phase.marker
         && OldEnough(s.now, q.phase.marker) && OldEnough(s.now, q.phase.target.modified)
      then SetPhase(s, p, Guarded(q.phase.target))
      else ReleaseAll(SetPhase(s, p, Idle), p)
    case Isolate(_) =>
      var c := q.phase.target;
      var l := s.leases[c.dir];
      SetPhase(SetLease(s, c.dir, l.(files := l.files[c.file := l.files[c.file].(quarantined := true)])), p, Isolated(c))
    case Unlink(_) =>
      var c := q.phase.target;
      var l := s.leases[c.dir];
      ReleaseAll(SetPhase(SetLease(s, c.dir, l.(files := l.files - {c.file})), p, Idle), p)
    case RestoreIsolated(_) =>
      var c := q.phase.target;
      var l := s.leases[c.dir];
      var files := if c.file in l.files then l.files[c.file := l.files[c.file].(quarantined := false)] else l.files;
      ReleaseAll(SetPhase(SetLease(s, c.dir, l.(files := files)), p, Idle), p)
    case Abandon(_) => ReleaseAll(SetPhase(s, p, Idle), p)
  }

  function Step(s: State, e: Event): State
    requires Enabled(s, e)
  {
    if e.Tick? then
      s.(now := s.now + e.seconds)
    else if IsOwnerEvent(e) then
      SetLease(s, e.dir, OwnerStep(s.leases[e.dir], e, s.now))
    else
      PrunerStep(s, e)
  }

  // ----- Runs -----

  predicate Initial(s: State) {
    && (forall d :: 0 <= d < |s.leases| ==> s.leases[d] == Lease(Unborn, Free, map[], Never))
    && (forall p :: 0 <= p < |s.pruners| ==> s.pruners[p] == Pruner(Idle, 0, map[], {}))
  }

  predicate Segment(states: seq<State>, events: seq<Event>) {
    && |states| == |events| + 1
    && forall i :: 0 <= i < |events| ==> Enabled(states[i], events[i]) && states[i + 1] == Step(states[i], events[i])
  }

  predicate Run(states: seq<State>, events: seq<Event>) {
    Segment(states, events) && Initial(states[0])
  }

  // ----- The invariant -----

  /** The marker has been there for the whole grace period, or the owner gave the directory up. */
  predicate GraceOver(now: nat, l: Lease) {
    || l.owner.Removing? || l.owner.Finished? || l.owner == Crashed(true)
    || (l.owner == Crashed(false) && l.marked.At? && now >= l.marked.time + MIN_ABANDONED_LEASE_AGE)
  }

  predicate LeaseInv(now: nat, l: Lease) {
    && (l.owner.Unborn? || l.owner.MadeDirectory? ==> l.lock.Free?)
    && (l.owner.HoldsLock? || l.owner.Active? || l.owner.Removing? ==> l.lock.ByOwner?)
    && (l.owner.Finished? || l.owner.Crashed? ==> !l.lock.ByOwner?)
    && (!l.WasActive() ==> l.marked.Never?)
    && (l.owner.Active? ==> l.MarkerVisible())
    && (l.files != map[] ==> l.marked.At?)
    && (MARKER in l.files ==> l.files[MARKER].modified == l.marked.time)
    && (l.marked.At? && !l.MarkerVisible() ==> GraceOver(now, l))
  }

  predicate PrunerInv(s: State, p: nat)
    requires p < |s.pruners|
  {
    match s.pruners[p].phase
    case Idle => true
    case InspectSawMarker(d, _) => d < |s.leases| && s.leases[d].marked.At?
    case InspectLocked(d, _) => d < |s.leases| && s.leases[d].lock == ByPruner(p)
    case Opened(c) => c.dir < |s.leases| && s.leases[c.dir].marked.At?
    case GuardSawMarker(c, _) => c.dir < |s.leases| && s.leases[c.dir].marked.At?
    case GuardLocked(c, _) => c.dir < |s.leases| && s.leases[c.dir].marked.At? && s.leases[c.dir].lock == ByPruner(p)
    case Guarded(c) => c.dir < |s.leases| && GraceOver(s.now, s.leases[c.dir])
    case Isolated(c) => c.dir < |s.leases| && GraceOver(s.now, s.leases[c.dir])
  }

  predicate Inv(s: State) {
    && (forall d :: 0 <= d < |s.leases| ==> LeaseInv(s.now, s.leases[d]))
    && (forall p :: 0 <= p < |s.pruners| ==> PrunerInv(s, p))
  }

  lemma OwnerStepKeepsLease(l: Lease, e: Event, now: nat)
    requires IsOwnerEvent(e) && OwnerEnabled(l, e) && LeaseInv(now, l)
    ensures LeaseInv(now, OwnerStep(l, e, now))
    ensures l.marked.At? ==> OwnerStep(l, e, now).marked.At?
    ensures l.lock.ByPruner? ==> OwnerStep(l, e, now).lock == l.lock
    ensures GraceOver(now, l) ==> GraceOver(now, OwnerStep(l, e, now))
  {
  }

  /** What a step may not take away from a pruner that is not taking it. */
  predicate Stable(s: State, t: State, p: nat) {
    && s.now <= t.now && |s.leases| == |t.leases|
    && forall d :: 0 <= d < |s.leases| ==>
         && (s.leases[d].marked.At? ==> t.leases[d].marked.At?)
         && (s.leases[d].lock == ByPruner(p) ==> t.leases[d].lock == ByPruner(p))
         && (GraceOver(s.now, s.leases[d]) ==> GraceOver(t.now, t.leases[d]))
  }

  lemma StableKeepsPruner(s: State, t: State, p: nat)
    requires p < |s.pruners| == |t.pruners| && PrunerInv(s, p) && Stable(s, t, p)
    requires t.pruners[p].phase == s.pruners[p].phase
    ensures PrunerInv(t, p)
  {
  }

  lemma PrunerStepKeepsLeases(s: State, e: Event)
    requires Inv(s) && IsPrunerEvent(e) && Enabled(s, e)
    ensures |Step(s, e).leases| == |s.leases|
    ensures forall d :: 0 <= d < |s.leases| ==> LeaseInv(s.now, Step(s, e).leases[d])
  {
    assert PrunerInv(s, e.p);
  }

  lemma PrunerStepIsStableForOthers(s: State, e: Event, p: nat)
    requires Inv(s) && IsPrunerEvent(e) && Enabled(s, e) && p != e.p
    ensures Stable(s, Step(s, e), p)
  {
  }

  lemma PrunerStepKeepsItself(s: State, e: Event)
    requires Inv(s) && IsPrunerEvent(e) && Enabled(s, e)
    ensures e.p < |Step(s, e).pruners| && PrunerInv(Step(s, e), e.p)
  {
    assert PrunerInv(s, e.p);
  }

  lemma StepKeepsInv(s: State, e: Event)
    requires Inv(s) && Enabled(s, e)
    ensures Inv(Step(s, e))
  {
    var t := Step(s, e);
    if e.Tick? {
      forall p | 0 <= p < |t.pruners| ensures PrunerInv(t, p) {
        assert PrunerInv(s, p);
        StableKeepsPruner(s, t, p);
      }
    } else if IsOwnerEvent(e) {
      OwnerStepKeepsLease(s.leases[e.dir], e, s.now);
      forall p | 0 <= p < |t.pruners| ensures PrunerInv(t, p) {
        assert PrunerInv(s, p);
        StableKeepsPruner(s, t, p);
      }
    } else {
      PrunerStepKeepsLeases(s, e);
      PrunerStepKeepsItself(s, e);
      forall p | 0 <= p < |t.pruners| && p != e.p ensures PrunerInv(t, p) {
        assert PrunerInv(s, p);
        PrunerStepIsStableForOthers(s, e, p);
        StableKeepsPruner(s, t, p);
      }
    }
  }

  lemma {:induction false} RunKeepsInv(states: seq<State>, events: seq<Event>, i: nat)
    requires Run(states, events) && i < |states|
    ensures Inv(states[i])
  {
    if i == 0 {
    } else {
      RunKeepsInv(states, events, i - 1);
      StepKeepsInv(states[i - 1], events[i - 1]);
    }
  }

  // ----- Safety -----

  /** A pruner leaves every directory alone whose owner is alive and has not begun
    * to remove it, whatever the pruner believed when it listed the files. */
  lemma PrunersSpareDirectoriesInUse(states: seq<State>, events: seq<Event>, i: nat, d: nat)
    requires Run(states, events) && i < |events| && d < |states[i].leases|
    requires IsPrunerEvent(events[i]) && states[i].leases[d].InUse()
    ensures states[i + 1].leases[d].files == states[i].leases[d].files
    ensures states[i + 1].leases[d].owner == states[i].leases[d].owner
    ensures states[i + 1].leases[d].lock == states[i].leases[d].lock
  {
    RunKeepsInv(states, events, i);
    assert PrunerInv(states[i], events[i].p);
    assert LeaseInv(states[i].now, states[i].leases[d]);
  }

  /** What a pruner may change files of. */
  lemma ChangedMeansGraceOver(s: State, e: Event, d: nat)
    requires Inv(s) && IsPrunerEvent(e) && Enabled(s, e) && d < |s.leases| == |Step(s, e).leases|
    requires Step(s, e).leases[d].files != s.leases[d].files
    ensures GraceOver(s.now, s.leases[d])
  {
    assert PrunerInv(s, e.p);
  }

  /** After a crash that came before the owner began to remove its directory, the marker
    * protects the directory for the whole grace period. */
  lemma GracePeriodIsKept(states: seq<State>, events: seq<Event>, i: nat, d: nat)
    requires Run(states, events) && i < |events| && d < |states[i].leases|
    requires IsPrunerEvent(events[i])
    requires states[i + 1].leases[d].files != states[i].leases[d].files
    ensures states[i].leases[d].owner != Crashed(false)
            || (states[i].leases[d].marked.At? && states[i].now >= states[i].leases[d].marked.time + 300)
    ensures !states[i].leases[d].InUse()
  {
    RunKeepsInv(states, events, i);
    PrunerStepKeepsLeases(states[i], events[i]);
    ChangedMeansGraceOver(states[i], events[i], d);
  }

  /** What a step leaves of a directory's history. */
  predicate KeepsHistory(l: Lease, n: Lease, e: Event, d: nat, now: nat) {
    && (l.owner == Crashed(false) ==> n.owner == Crashed(false))
    && (e == CrashOwner(d) && l.InUse() ==> n.owner == Crashed(false))
    && (n.marked == l.marked || (e == WriteMarker(d) && n.marked == At(now)))
  }

  lemma GuardKeepsHistory(s: State, e: Event, d: nat)
    requires Enabled(s, e) && IsGuardEvent(e) && d < |s.leases| == |Step(s, e).leases|
    ensures KeepsHistory(s.leases[d], Step(s, e).leases[d], e, d, s.now)
  {
  }

  lemma InspectionKeepsHistory(s: State, e: Event, d: nat)
    requires Enabled(s, e) && IsPrunerEvent(e) && !IsGuardEvent(e) && d < |s.leases| == |Step(s, e).leases|
    ensures KeepsHistory(s.leases[d], Step(s, e).leases[d], e, d, s.now)
  {
  }

  lemma OwnerKeepsHistory(s: State, e: Event, d: nat)
    requires Enabled(s, e) && !IsPrunerEvent(e) && d < |s.leases| == |Step(s, e).leases|
    ensures KeepsHistory(s.leases[d], Step(s, e).leases[d], e, d, s.now)
  {
  }

  predicate HistoryKept(states: seq<State>, events: seq<Event>, j: nat, d: nat) {
    j < |events| && j + 1 < |states| && d < |states[j].leases| ==>
      d < |states[j + 1].leases| && KeepsHistory(states[j].leases[d], states[j + 1].leases[d], events[j], d, states[j].now)
  }

  lemma RunKeepsHistory(states: seq<State>, events: seq<Event>, j: nat, d: nat)
    requires Run(states, events)
    ensures HistoryKept(states, events, j, d)
  {
    if j < |events| && d < |states[j].leases| {
      LeaseCountStays(states[j], events[j]);
      if IsGuardEvent(events[j]) {
        GuardKeepsHistory(states[j], events[j], d);
      } else if IsPrunerEvent(events[j]) {
        InspectionKeepsHistory(states[j], events[j], d);
      } else {
        OwnerKeepsHistory(states[j], events[j], d);
      }
    }
  }

  lemma {:induction false} CrashIsForGood(states: seq<State>, events: seq<Event>, k: nat, i: nat, d: nat)
    requires |states| == |events| + 1 && k < i < |states| && d < |states[k].leases|
    requires events[k] == CrashOwner(d) && states[k].leases[d].InUse()
    requires forall j: nat :: HistoryKept(states, events, j, d)
    ensures d < |states[i].leases| && states[i].leases[d].owner == Crashed(false)
    decreases i
  {
    if k < i - 1 {
      CrashIsForGood(states, events, k, i - 1, d);
    }
    assert HistoryKept(states, events, i - 1, d);
  }

  lemma {:induction false} MarkedWhenWritten(states: seq<State>, events: seq<Event>, i: nat, d: nat) returns (j: nat)
    requires |states| == |events| + 1 && d < |states[0].leases| && states[0].leases[d].marked.Never?
    requires forall j: nat :: j < |states| ==> |states[j].leases| == |states[0].leases|
    requires forall j: nat :: HistoryKept(states, events, j, d)
    requires i < |states| && states[i].leases[d].marked.At?
    ensures j < i && events[j] == WriteMarker(d) && states[j].now == states[i].leases[d].marked.time
  {
    assert HistoryKept(states, events, i - 1, d);
    if states[i - 1].leases[d].marked == states[i].leases[d].marked {
      j := MarkedWhenWritten(states, events, i - 1, d);
    } else {
      j := i - 1;
    }
  }

  /** An owner that crashed while its directory was in use: no pruner changes the directory's
    * files until 300 seconds after the marker was written. */
  lemma CrashedOwnersKeepTheirGrace(states: seq<State>, events: seq<Event>, k: nat, i: nat, d: nat) returns (j: nat)
    requires Run(states, events) && k < i < |events| && d < |states[k].leases|
    requires events[k] == CrashOwner(d) && states[k].leases[d].InUse()
    requires IsPrunerEvent(events[i]) && d < |states[i].leases| && d < |states[i + 1].leases|
    requires states[i + 1].leases[d].files != states[i].leases[d].files
    ensures j < i && events[j] == WriteMarker(d) && states[i].now >= states[j].now + 300
  {
    forall n: nat ensures HistoryKept(states, events, n, d) {
      RunKeepsHistory(states, events, n, d);
    }
    forall n: nat | n < |states| ensures |states[n].leases| == |states[0].leases| {
      LeaseCountIsFixed(states, events, n);
    }
    CrashIsForGood(states, events, k, i, d);
    GracePeriodIsKept(states, events, i, d);
    j := MarkedWhenWritten(states, events, i, d);
  }

  // ----- What is unlinked has passed the guard -----

  /** A file can be listed as a candidate exactly under a verdict that gives it up: no marker,
    * or a marker 300 seconds old at the inventory, as the file must then be too. */
  lemma ListableExactlyWhen(s: State, p: nat, d: nat, f: FileId)
    ensures Enabled(s, ListFile(p, d, f)) <==>
      && p < |s.pruners| && s.pruners[p].phase.Idle? && d < |s.leases| && f in s.leases[d].files
      && d in s.pruners[p].verdicts
      && var verdict, taken := s.pruners[p].verdicts[d], s.pruners[p].inventoryTime;
         || verdict == Transient
         || exists marker: nat :: verdict == AbandonedLease(marker) && taken >= marker + 300
                             && taken >= s.leases[d].files[f].modified + 300
  {
    if p < |s.pruners| && d in s.pruners[p].verdicts && d < |s.leases| && f in s.leases[d].files {
      var verdict := s.pruners[p].verdicts[d];
      if verdict.AbandonedLease? {
        var path := [TRANSIENT_DIRECTORY, "lease", "file"];
        assert path[0] == TRANSIENT_DIRECTORY && |path| == 3;
        assert verdict == AbandonedLease(verdict.markerModified);
      } else {
        ListingFollowsVerdict(verdict, s.leases[d].files[f].modified, s.pruners[p].inventoryTime);
      }
    }
  }

  /** The pruner has let `c` through its guard. */
  predicate Passed(q: Pruner, c: Candidate) { q.phase == Guarded(c) || q.phase == Isolated(c) }

  /** The guard lets `c` through at this step: there is no marker, or it is the one seen before
    * the lock was taken, and both it and the file are 300 seconds old. */
  predicate LetsThrough(s: State, e: Event, p: nat, c: Candidate) {
    && p < |s.pruners| && c.dir < |s.leases|
    && var files, phase := s.leases[c.dir].files, s.pruners[p].phase;
    if e == GuardNoMarker(p) then
      phase == Opened(c) && (MARKER in files ==> files[MARKER].quarantined)
    else
      && e == GuardDone(p) && MARKER in files && !files[MARKER].quarantined
      && phase == GuardLocked(c, files[MARKER].modified)
      && s.now >= files[MARKER].modified + 300 && s.now >= c.modified + 300
  }

  lemma PassedComesFrom(s: State, e: Event, p: nat, c: Candidate)
    requires Enabled(s, e) && p < |Step(s, e).pruners| && Passed(Step(s, e).pruners[p], c)
    ensures p < |s.pruners| && (Passed(s.pruners[p], c) || LetsThrough(s, e, p, c))
  {
    if !IsPrunerEvent(e) || e.p != p {
      OtherPrunersKeepVerdicts(s, e, p);
    }
  }

  lemma {:induction false} PassedWasLetThrough(states: seq<State>, events: seq<Event>, i: nat, p: nat, c: Candidate)
    returns (k: nat)
    requires Run(states, events) && i < |states| && p < |states[i].pruners| && Passed(states[i].pruners[p], c)
    ensures k < i && LetsThrough(states[k], events[k], p, c)
  {
    if i > 0 {
      PassedComesFrom(states[i - 1], events[i - 1], p, c);
      if Passed(states[i - 1].pruners[p], c) {
        k := PassedWasLetThrough(states, events, i - 1, p, c);
      } else {
        k := i - 1;
      }
    } else {
      assert false;
    }
  }

  /** Whatever a pruner unlinks is the file it listed, not modified since, and its guard let
    * that file through before. */
  lemma UnlinkedFilesPassedTheGuard(states: seq<State>, events: seq<Event>, i: nat, p: nat) returns (k: nat)
    requires Run(states, events) && i < |events| && events[i] == Unlink(p)
    ensures p < |states[i].pruners| && states[i].pruners[p].phase.Isolated?
    ensures
      var c := states[i].pruners[p].phase.target;
      && k < i && LetsThrough(states[k], events[k], p, c)
      && c.dir < |states[i].leases| && c.file in states[i].leases[c.dir].files
      && states[i].leases[c.dir].files[c.file].modified == c.modified
  {
    k := PassedWasLetThrough(states, events, i, p, states[i].pruners[p].phase.target);
  }

  /** Renaming a candidate hides it, and renaming it back undoes that. */
  lemma RestoreUndoesIsolate(s: State, p: nat)
    requires Enabled(s, Isolate(p)) && s.pruners[p].phase.target.dir < |s.leases|
    requires !s.leases[s.pruners[p].phase.target.dir].files[s.pruners[p].phase.target.file].quarantined
    ensures
      var c, t := s.pruners[p].phase.target, Step(s, Isolate(p));
      && Enabled(t, RestoreIsolated(p)) && |t.leases| == |s.leases| == |Step(t, RestoreIsolated(p)).leases|
      && t.leases[c.dir].files == s.leases[c.dir].files[c.file := File(c.modified, true)]
      && forall d :: 0 <= d < |s.leases| ==> Step(t, RestoreIsolated(p)).leases[d].files == s.leases[d].files
  {
  }

  // ----- Locks are held for a reason -----

  /** The pruner is at work on directory `d`. */
  predicate WorksOn(q: Pruner, d: nat) {
    match q.phase
    case InspectLocked(dir, _) => dir == d
    case GuardLocked(c, _) => c.dir == d
    case Guarded(c) => c.dir == d
    case Isolated(c) => c.dir == d
    case _ => false
  }

  predicate LockExplained(l: Lease, pruners: seq<Pruner>, d: nat) {
    l.lock.ByPruner? ==> l.lock.pruner < |pruners| && WorksOn(pruners[l.lock.pruner], d)
  }

  predicate LocksExplained(s: State) {
    forall d :: 0 <= d < |s.leases| ==> LockExplained(s.leases[d], s.pruners, d)
  }

  lemma OwnersLeavePruners(s: State, e: Event)
    requires Enabled(s, e) && IsOwnerEvent(e) && LocksExplained(s)
    ensures LocksExplained(Step(s, e))
  {
  }

  predicate IsGuardEvent(e: Event) {
    e.GuardNoMarker? || e.GuardMarker? || e.GuardTryLock? || e.GuardDone? || e.Isolate? || e.Unlink? || e.RestoreIsolated?
  }

  lemma GuardExplainsLock(s: State, e: Event, d: nat)
    requires Enabled(s, e) && IsGuardEvent(e) && d < |s.leases| == |Step(s, e).leases|
    requires LockExplained(s.leases[d], s.pruners, d)
    ensures LockExplained(Step(s, e).leases[d], Step(s, e).pruners, d)
  {
  }

  lemma OtherStepsExplainLock(s: State, e: Event, d: nat)
    requires Enabled(s, e) && IsPrunerEvent(e) && !IsGuardEvent(e) && d < |s.leases| == |Step(s, e).leases|
    requires LockExplained(s.leases[d], s.pruners, d)
    ensures LockExplained(Step(s, e).leases[d], Step(s, e).pruners, d)
  {
  }

  lemma PrunersExplainLocks(s: State, e: Event)
    requires Enabled(s, e) && IsPrunerEvent(e) && LocksExplained(s)
    ensures LocksExplained(Step(s, e))
  {
    LeaseCountStays(s, e);
    forall d | 0 <= d < |s.leases| ensures LockExplained(Step(s, e).leases[d], Step(s, e).pruners, d) {
      if IsGuardEvent(e) {
        GuardExplainsLock(s, e, d);
      } else {
        OtherStepsExplainLock(s, e, d);
      }
    }
  }

  /** In every state of a run, a lock that a pruner holds is on the one directory that it is
    * inspecting or guarding: no pruner keeps a lock it has no more use for. */
  lemma {:induction false} NoLockIsForgotten(states: seq<State>, events: seq<Event>, i: nat)
    requires Run(states, events) && i < |states|
    ensures LocksExplained(states[i])
  {
    if i > 0 {
      NoLockIsForgotten(states, events, i - 1);
      if IsPrunerEvent(events[i - 1]) {
        PrunersExplainLocks(states[i - 1], events[i - 1]);
      } else if IsOwnerEvent(events[i - 1]) {
        OwnersLeavePruners(states[i - 1], events[i - 1]);
      }
    }
  }

  // ----- An owner cannot tell that there are pruners -----

  /** The directory as its owner alone would have made it. */
  function OwnerAlone(states: seq<State>, events: seq<Event>, d: nat, i: nat): Lease
    requires i <= |events| && |states| == |events| + 1
  {
    if i == 0 then
      Lease(Unborn, Free, map[], Never)
    else
      var before := OwnerAlone(states, events, d, i - 1);
      var e := events[i - 1];
      if IsOwnerEvent(e) && e.dir == d && OwnerEnabled(before, e) then OwnerStep(before, e, states[i - 1].now) else before
  }

  lemma LeaseCountStays(s: State, e: Event)
    requires Enabled(s, e)
    ensures |Step(s, e).leases| == |s.leases|
  {
  }

  /** One step into a state in which the directory is in use: the owner's own, or it was in
    * use and is as it was. */
  predicate LedToUse(s: State, e: Event, d: nat)
    requires Enabled(s, e) && d < |s.leases| == |Step(s, e).leases|
  {
    var t := Step(s, e);
    if s.leases[d].InUse() && !(IsOwnerEvent(e) && e.dir == d) then t.leases[d] == s.leases[d]
    else
      && IsOwnerEvent(e) && e.dir == d && OwnerEnabled(s.leases[d], e)
      && t.leases[d] == OwnerStep(s.leases[d], e, s.now) && (!s.leases[d].InUse() ==> e == MakeDirectory(d))
  }

  lemma PrunersMakeNothingInUse(s: State, e: Event, d: nat)
    requires Inv(s) && IsPrunerEvent(e) && Enabled(s, e) && d < |s.leases| == |Step(s, e).leases|
    requires Step(s, e).leases[d].InUse()
    ensures s.leases[d].InUse() && Step(s, e).leases[d] == s.leases[d]
  {
    assert PrunerInv(s, e.p);
    assert LeaseInv(s.now, s.leases[d]);
  }

  lemma StepIntoUse(s: State, e: Event, d: nat)
    requires Inv(s) && Enabled(s, e) && d < |s.leases| == |Step(s, e).leases| && Step(s, e).leases[d].InUse()
    ensures LedToUse(s, e, d)
  {
    if IsPrunerEvent(e) {
      PrunersMakeNothingInUse(s, e, d);
    }
  }

  lemma InUseStep(states: seq<State>, events: seq<Event>, d: nat, i: nat)
    requires Run(states, events) && 0 < i < |states| && d < |states[i - 1].leases|
    requires d < |states[i].leases| && states[i].leases[d].InUse()
    ensures states[i] == Step(states[i - 1], events[i - 1]) && |states[i].leases| == |states[i - 1].leases|
    ensures LedToUse(states[i - 1], events[i - 1], d)
  {
    LeaseCountStays(states[i - 1], events[i - 1]);
    RunKeepsInv(states, events, i - 1);
    StepIntoUse(states[i - 1], events[i - 1], d);
  }

  lemma {:induction false} InUseMeansUntouched(states: seq<State>, events: seq<Event>, d: nat, i: nat)
    requires Run(states, events) && i < |states| && d < |states[i].leases|
    requires states[i].leases[d].InUse()
    ensures states[i].leases[d] == OwnerAlone(states, events, d, i)
  {
    LeaseCountIsFixed(states, events, i);
    if i > 0 {
      LeaseCountIsFixed(states, events, i - 1);
      InUseStep(states, events, d, i);
      if states[i - 1].leases[d].InUse() {
        InUseMeansUntouched(states, events, d, i - 1);
      } else {
        UnbornMeansUntouched(states, events, d, i - 1);
      }
    }
  }

  lemma {:induction false} LeaseCountIsFixed(states: seq<State>, events: seq<Event>, i: nat)
    requires Run(states, events) && i < |states|
    ensures |states[i].leases| == |states[0].leases|
  {
    if i > 0 {
      LeaseCountIsFixed(states, events, i - 1);
      assert states[i] == Step(states[i - 1], events[i - 1]);
    }
  }

  lemma StepIntoUnborn(s: State, e: Event, d: nat)
    requires Inv(s) && Enabled(s, e) && d < |s.leases| == |Step(s, e).leases| && Step(s, e).leases[d].owner.Unborn?
    ensures s.leases[d].owner.Unborn? && !(IsOwnerEvent(e) && e.dir == d) && Step(s, e).leases[d] == s.leases[d]
  {
    assert LeaseInv(s.now, s.leases[d]);
    if IsPrunerEvent(e) {
      assert PrunerInv(s, e.p);
    }
  }

  lemma {:induction false} UnbornMeansUntouched(states: seq<State>, events: seq<Event>, d: nat, i: nat)
    requires Run(states, events) && i < |states| && d < |states[i].leases|
    requires states[i].leases[d].owner.Unborn?
    ensures states[i].leases[d] == OwnerAlone(states, events, d, i) == Lease(Unborn, Free, map[], Never)
  {
    if i > 0 {
      LeaseCountStays(states[i - 1], events[i - 1]);
      RunKeepsInv(states, events, i - 1);
      StepIntoUnborn(states[i - 1], events[i - 1], d);
      UnbornMeansUntouched(states, events, d, i - 1);
    }
  }

  // ----- Abandoned files do get reclaimed -----

  function Last(states: seq<State>): State
    requires states != []
  {
    states[|states| - 1]
  }

  /** The run that `events` make from `s`, if each is enabled in its turn. */
  lemma Then(states: seq<State>, events: seq<Event>, e: Event) returns (longer: seq<State>)
    requires Segment(states, events) && Enabled(Last(states), e)
    ensures Segment(longer, events + [e]) && longer[0] == states[0] && Last(longer) == Step(Last(states), e)
  {
    longer := states + [Step(Last(states), e)];
  }

  lemma Join(first: seq<State>, firstEvents: seq<Event>, second: seq<State>, secondEvents: seq<Event>)
      returns (states: seq<State>)
    requires Segment(first, firstEvents) && Segment(second, secondEvents) && Last(first) == second[0]
    ensures Segment(states, firstEvents + secondEvents) && states[0] == first[0] && Last(states) == Last(second)
  {
    states := first + second[1..];
    var events := firstEvents + secondEvents;
    forall i | 0 <= i < |events| ensures Enabled(states[i], events[i]) && states[i + 1] == Step(states[i], events[i]) {
      if i >= |firstEvents| {
        assert states[i] == second[i - |firstEvents|];
      }
    }
  }

  /** The owner is gone, the grace period over, and `f` there to be reclaimed. */
  predicate Reclaimable(s: State, d: nat, f: FileId) {
    && d < |s.leases|
    && (s.leases[d].owner.Finished? || s.leases[d].owner.Crashed?)
    && s.leases[d].MarkerVisible() && f in s.leases[d].files
    && OldEnough(s.now, s.leases[d].files[MARKER].modified) && OldEnough(s.now, s.leases[d].files[f].modified)
  }

  function CandidateFor(s: State, d: nat, f: FileId): Candidate
    requires d < |s.leases| && f in s.leases[d].files
  {
    Candidate(d, f, s.leases[d].files[f].modified)
  }

  /** What a schedule of one pruner at one directory looks at. */
  predicate Sees(s: State, p: nat, d: nat, now: nat, l: Lease, q: Pruner) {
    p < |s.pruners| && d < |s.leases| && s.now == now && s.leases[d] == l && s.pruners[p] == q
  }

  /** Like `Then`, for one pruner at one directory; `l` and `q` are how it leaves them. */
  lemma ThenSees(states: seq<State>, events: seq<Event>, e: Event, d: nat, l: Lease,
          q: Pruner) returns (longer: seq<State>)
    requires Segment(states, events) && IsPrunerEvent(e) && Enabled(Last(states), e) && d < |Last(states).leases|
    requires var t := Step(Last(states), e);
      |t.leases| == |Last(states).leases| && t.leases[d] == l && t.pruners[e.p] == q
    ensures Segment(longer, events + [e]) && longer[0] == states[0]
    ensures |Last(longer).leases| == |Last(states).leases|
    ensures Sees(Last(longer), e.p, d, Last(states).now, l, q)
  {
    longer := Then(states, events, e);
  }

  predicate Only(events: seq<Event>, p: nat) {
    forall e :: e in events ==> IsPrunerEvent(e) && e.p == p
  }

  lemma StartInventory(s: State, p: nat, d: nat) returns (states: seq<State>, events: seq<Event>)
    requires p < |s.pruners| && d < |s.leases| && (s.leases[d].lock.Free? || s.leases[d].lock == ByPruner(p))
    ensures Segment(states, events) && states[0] == s && Only(events, p)
    ensures |Last(states).leases| == |s.leases|
    ensures Sees(Last(states), p, d, s.now, s.leases[d].(lock := Free), Pruner(Idle, s.now, map[], {}))
  {
    var free := s.leases[d].(lock := Free);
    states := ThenSees([s], [], Abandon(p), d, free, s.pruners[p].(phase := Idle));
    states := ThenSees(states, [Abandon(p)], BeginInventory(p), d, free, Pruner(Idle, s.now, map[], {}));
    events := [Abandon(p)] + [BeginInventory(p)];
  }

  lemma InspectAbandoned(s: State, p: nat, d: nat, f: FileId) returns (states: seq<State>, events: seq<Event>)
    requires p < |s.pruners| && Reclaimable(s, d, f) && s.leases[d].lock.Free? && s.pruners[p].phase.Idle?
    ensures Segment(states, events) && states[0] == s && Only(events, p)
    ensures |Last(states).leases| == |s.leases|
    ensures Sees(Last(states), p, d, s.now, s.leases[d],
                 s.pruners[p].(verdicts := s.pruners[p].verdicts[d := AbandonedLease(s.leases[d].files[MARKER].modified)]))
  {
    var free, locked := s.leases[d], s.leases[d].(lock := ByPruner(p));
    var m := free.files[MARKER].modified;
    var q := s.pruners[p];
    states := ThenSees([s], [], InspectMarker(p, d), d, free, q.(phase := InspectSawMarker(d, m)));
    events := [InspectMarker(p, d)];
    states := ThenSees(states, events, InspectTryLock(p), d, locked, q.(phase := InspectLocked(d, m)));
    events := events + [InspectTryLock(p)];
    states := ThenSees(states, events, InspectDone(p), d, free, q.(verdicts := q.verdicts[d := AbandonedLease(m)]));
    events := events + [InspectDone(p)];
  }

  lemma OpenAbandoned(s: State, p: nat, d: nat, f: FileId) returns (states: seq<State>, events: seq<Event>)
    requires p < |s.pruners| && Reclaimable(s, d, f) && s.pruners[p].phase.Idle? && s.pruners[p].inventoryTime == s.now
    requires d in s.pruners[p].verdicts && s.pruners[p].verdicts[d] == AbandonedLease(s.leases[d].files[MARKER].modified)
    ensures Segment(states, events) && states[0] == s && Only(events, p)
    ensures |Last(states).leases| == |s.leases|
    ensures Sees(Last(states), p, d, s.now, s.leases[d],
                 s.pruners[p].(phase := Opened(CandidateFor(s, d, f)), candidates := s.pruners[p].candidates + {CandidateFor(s, d, f)}))
  {
    var c := CandidateFor(s, d, f);
    var q := s.pruners[p].(candidates := s.pruners[p].candidates + {c});
    states := ThenSees([s], [], ListFile(p, d, f), d, s.leases[d], q);
    states := ThenSees(states, [ListFile(p, d, f)], OpenCandidate(p, c), d, s.leases[d], q.(phase := Opened(c)));
    events := [ListFile(p, d, f)] + [OpenCandidate(p, c)];
  }

  lemma GuardAbandoned(s: State, p: nat, d: nat, f: FileId) returns (states: seq<State>, events: seq<Event>)
    requires p < |s.pruners| && Reclaimable(s, d, f) && s.leases[d].lock.Free?
    requires s.pruners[p].phase == Opened(CandidateFor(s, d, f))
    ensures Segment(states, events) && states[0] == s && Only(events, p)
    ensures |Last(states).leases| == |s.leases|
    ensures Sees(Last(states), p, d, s.now, s.leases[d].(lock := ByPruner(p)), s.pruners[p].(phase := Guarded(CandidateFor(s, d, f))))
  {
    var c := CandidateFor(s, d, f);
    var free, locked := s.leases[d], s.leases[d].(lock := ByPruner(p));
    var m := free.files[MARKER].modified;
    var q := s.pruners[p];
    states := ThenSees([s], [], GuardMarker(p), d, free, q.(phase := GuardSawMarker(c, m)));
    events := [GuardMarker(p)];
    states := ThenSees(states, events, GuardTryLock(p), d, locked, q.(phase := GuardLocked(c, m)));
    events := events + [GuardTryLock(p)];
    states := ThenSees(states, events, GuardDone(p), d, locked, q.(phase := Guarded(c)));
    events := events + [GuardDone(p)];
  }

  lemma UnlinkGuarded(s: State, p: nat, d: nat, f: FileId) returns (states: seq<State>, events: seq<Event>)
    requires p < |s.pruners| && d < |s.leases| && f in s.leases[d].files && s.leases[d].lock == ByPruner(p)
    requires s.pruners[p].phase == Guarded(CandidateFor(s, d, f))
    ensures Segment(states, events) && states[0] == s
    ensures Only(events, p)
    ensures |Last(states).leases| == |s.leases|
    ensures Last(states).leases[d] == s.leases[d].(lock := Free, files := s.leases[d].files - {f})
  {
    var l := s.leases[d];
    states, events := [s], [];
    states := Then(states, events, Isolate(p));
    states := Then(states, [Isolate(p)], Unlink(p));
    events := [Isolate(p)] + [Unlink(p)];
    assert l.files[f := l.files[f].(quarantined := true)] - {f} == l.files - {f};
  }

  /** From any reachable state, one pruner acting alone can unlink any file of a
    * directory whose owner is gone, whose marker and file are old enough, and
    * whose lock no other pruner holds. */
  lemma AbandonedFilesAreReclaimable(s: State, p: nat, d: nat, f: FileId) returns (states: seq<State>, events: seq<Event>)
    requires p < |s.pruners| && Reclaimable(s, d, f) && (s.leases[d].lock.Free? || s.leases[d].lock == ByPruner(p))
    ensures Segment(states, events) && states[0] == s
    ensures Only(events, p)
    ensures |Last(states).leases| == |s.leases|
    ensures Last(states).leases[d] == s.leases[d].(lock := Free, files := s.leases[d].files - {f})
  {
    var more: seq<State>;
    var moreEvents: seq<Event>;
    states, events := StartInventory(s, p, d);
    more, moreEvents := InspectAbandoned(Last(states), p, d, f);
    states := Join(states, events, more, moreEvents);
    events := events + moreEvents;
    more, moreEvents := OpenAbandoned(Last(states), p, d, f);
    states := Join(states, events, more, moreEvents);
    events := events + moreEvents;
    more, moreEvents := GuardAbandoned(Last(states), p, d, f);
    states := Join(states, events, more, moreEvents);
    events := events + moreEvents;
    more, moreEvents := UnlinkGuarded(Last(states), p, d, f);
    states := Join(states, events, more, moreEvents);
    events := events + moreEvents;
  }

  /** An owner that has begun to remove its directory can finish: it deletes its files one
    * after another, and then the directory is empty and its lock free. */
  lemma {:induction false} OwnersCleanUp(s: State, d: nat) returns (states: seq<State>, events: seq<Event>)
    requires d < |s.leases| && s.leases[d].owner.Removing?
    ensures Segment(states, events) && states[0] == s
    ensures forall e :: e in events ==> IsOwnerEvent(e) && e.dir == d
    ensures |Last(states).leases| == |s.leases|
    ensures Last(states).leases[d] == s.leases[d].(owner := Finished, lock := Free, files := map[])
    decreases |s.leases[d].files.Keys|
  {
    var files := s.leases[d].files;
    if files == map[] {
      states := Then([s], [], FinishDrop(d));
      events := [] + [FinishDrop(d)];
    } else {
      var f :| f in files;
      assert (files - {f}).Keys == files.Keys - {f};
      var first := Then([s], [], DropFile(d, f));
      var rest, restEvents := OwnersCleanUp(Last(first), d);
      states := Join(first, [] + [DropFile(d, f)], rest, restEvents);
      events := ([] + [DropFile(d, f)]) + restEvents;
    }
  }

  // ----- Why the guard is needed -----

  /** An owner that is active while a pruner still holds the verdict it reached before
    * the marker was written. */
  function OwnerActive(files: map<FileId, File>, candidates: set<Candidate>): State {
    State(0, [Lease(Active, ByOwner, files, At(0))], [Pruner(Idle, 0, map[0 := Transient], candidates)])
  }

  function MarkerOnly(): map<FileId, File> { map[MARKER := File(0, false)] }

  function Inspected(): State {
    State(0, [Lease(MadeDirectory, Free, map[], Never)], [Pruner(Idle, 0, map[0 := Transient], {})])
  }

  lemma InspectionBeforeMarker() returns (states: seq<State>, events: seq<Event>)
    ensures Run(states, events) && Last(states) == Inspected()
  {
    var s0 := State(0, [Lease(Unborn, Free, map[], Never)], [Pruner(Idle, 0, map[], {})]);
    states, events := [s0], [];
    states := Then(states, events, MakeDirectory(0));
    events := events + [MakeDirectory(0)];
    assert Last(states) == State(0, [Lease(MadeDirectory, Free, map[], Never)], [Pruner(Idle, 0, map[], {})]);
    states := Then(states, events, InspectNoMarker(0, 0));
    events := events + [InspectNoMarker(0, 0)];
  }

  lemma ActivationAfterInspection() returns (states: seq<State>, events: seq<Event>)
    ensures Segment(states, events) && states[0] == Inspected() && Last(states) == OwnerActive(MarkerOnly(), {})
  {
    states, events := [Inspected()], [];
    states := Then(states, events, TakeLock(0));
    events := events + [TakeLock(0)];
    assert Last(states) == State(0, [Lease(HoldsLock, ByOwner, map[], Never)], Inspected().pruners);
    states := Then(states, events, WriteMarker(0));
    events := events + [WriteMarker(0)];
  }

  lemma ListingAfterwards() returns (states: seq<State>, events: seq<Event>)
    ensures Segment(states, events) && states[0] == OwnerActive(MarkerOnly(), {})
    ensures var s := Last(states);
      && |s.leases| == 1 && |s.pruners| == 1
      && s.leases[0].owner.Active? && s.leases[0].lock.ByOwner?
      && s.pruners[0].phase.Opened? && Unchanged(s, s.pruners[0].phase.target)
  {
    var c := Candidate(0, 1, 0);
    var files := MarkerOnly()[1 := File(0, false)];
    states, events := [OwnerActive(MarkerOnly(), {})], [];
    states := Then(states, events, WriteFile(0, 1));
    events := events + [WriteFile(0, 1)];
    assert Last(states) == OwnerActive(files, {});
    states := Then(states, events, ListFile(0, 0, 1));
    events := events + [ListFile(0, 0, 1)];
    assert {} + {c} == {c};
    assert Last(states) == OwnerActive(files, {c});
    states := Then(states, events, OpenCandidate(0, c));
    events := events + [OpenCandidate(0, c)];
  }

  // ----- What a verdict is worth -----

  /** The owner has finished or crashed, and so is gone for good. */
  predicate Gone(l: Lease) { l.owner.Finished? || l.owner.Crashed? }

  lemma StaysGone(s: State, e: Event, d: nat)
    requires Enabled(s, e) && d < |s.leases| == |Step(s, e).leases| && Gone(s.leases[d])
    ensures Gone(Step(s, e).leases[d])
  {
  }

  predicate ClaimsAbandoned(q: Pruner, d: nat) { d in q.verdicts && q.verdicts[d].AbandonedLease? }

  /** Who classified a directory as abandoned holds that against an owner that is gone. */
  predicate VerdictsHold(s: State, q: Pruner) {
    forall d :: d in q.verdicts && ClaimsAbandoned(q, d) ==> d < |s.leases| && Gone(s.leases[d])
  }

  predicate AllVerdictsHold(s: State) {
    forall p :: 0 <= p < |s.pruners| ==> VerdictsHold(s, s.pruners[p])
  }

  /** The only step that classifies as abandoned holds the lock of a directory whose marker
    * it has seen, which no owner that is left could allow. */
  lemma PrunerStepClaims(s: State, e: Event, d: nat)
    requires Inv(s) && IsPrunerEvent(e) && Enabled(s, e)
    requires ClaimsAbandoned(Step(s, e).pruners[e.p], d)
    ensures ClaimsAbandoned(s.pruners[e.p], d) || (d < |s.leases| && Gone(s.leases[d]))
  {
    assert PrunerInv(s, e.p);
    if e.InspectDone? && d == s.pruners[e.p].phase.dir {
      assert LeaseInv(s.now, s.leases[d]);
    }
  }

  lemma OtherPrunersKeepVerdicts(s: State, e: Event, p: nat)
    requires Enabled(s, e) && p < |s.pruners| && (IsPrunerEvent(e) ==> e.p != p)
    ensures |Step(s, e).pruners| == |s.pruners| && Step(s, e).pruners[p] == s.pruners[p]
  {
  }

  lemma PrunerCountStays(s: State, e: Event)
    requires Enabled(s, e)
    ensures |Step(s, e).pruners| == |s.pruners|
  {
  }

  lemma StepKeepsVerdicts(s: State, e: Event)
    requires Inv(s) && AllVerdictsHold(s) && Enabled(s, e)
    ensures AllVerdictsHold(Step(s, e))
  {
    var t := Step(s, e);
    LeaseCountStays(s, e);
    PrunerCountStays(s, e);
    forall p | 0 <= p < |t.pruners| ensures VerdictsHold(t, t.pruners[p]) {
      assert VerdictsHold(s, s.pruners[p]);
      forall d: nat | ClaimsAbandoned(t.pruners[p], d) ensures d < |t.leases| && Gone(t.leases[d]) {
        if IsPrunerEvent(e) && e.p == p {
          PrunerStepClaims(s, e, d);
        } else {
          OtherPrunersKeepVerdicts(s, e, p);
        }
        StaysGone(s, e, d);
      }
    }
  }

  lemma {:induction false} RunKeepsVerdicts(states: seq<State>, events: seq<Event>, i: nat)
    requires Run(states, events) && i < |states|
    ensures AllVerdictsHold(states[i])
  {
    if i > 0 {
      RunKeepsVerdicts(states, events, i - 1);
      RunKeepsInv(states, events, i - 1);
      StepKeepsVerdicts(states[i - 1], events[i - 1]);
    }
  }

  /** One step leaves a gone owner gone. */
  predicate KeepsGone(states: seq<State>, j: nat, d: nat) {
    j + 1 < |states| && d < |states[j].leases| && Gone(states[j].leases[d]) ==>
      d < |states[j + 1].leases| && Gone(states[j + 1].leases[d])
  }

  lemma RunKeepsGone(states: seq<State>, events: seq<Event>, j: nat, d: nat)
    requires Run(states, events)
    ensures KeepsGone(states, j, d)
  {
    if j + 1 < |states| && d < |states[j].leases| && Gone(states[j].leases[d]) {
      LeaseCountStays(states[j], events[j]);
      StaysGone(states[j], events[j], d);
    }
  }

  lemma {:induction false} GoneForGood(states: seq<State>, i: nat, j: nat, d: nat)
    requires i <= j < |states| && d < |states[i].leases| && Gone(states[i].leases[d])
    requires forall k: nat :: KeepsGone(states, k, d)
    ensures d < |states[j].leases| && Gone(states[j].leases[d])
    decreases j
  {
    if i < j {
      GoneForGood(states, i, j - 1, d);
      assert KeepsGone(states, j - 1, d);
    }
  }

  /** An abandoned verdict is right, and stays right: from then on the owner is gone. */
  lemma AbandonedIsForGood(states: seq<State>, events: seq<Event>, i: nat, j: nat, p: nat, d: nat)
    requires Run(states, events) && i <= j < |states| && p < |states[i].pruners|
    requires ClaimsAbandoned(states[i].pruners[p], d)
    ensures d < |states[j].leases| && Gone(states[j].leases[d])
  {
    RunKeepsVerdicts(states, events, i);
    assert VerdictsHold(states[i], states[i].pruners[p]);
    forall k: nat ensures KeepsGone(states, k, d) {
      RunKeepsGone(states, events, k, d);
    }
    GoneForGood(states, i, j, d);
  }

  /** A pruner can list a file of a directory in use exactly when it holds a `Transient`
    * verdict on the directory. */
  lemma ListableInUseExactlyWhen(states: seq<State>, events: seq<Event>, i: nat, p: nat, d: nat, f: FileId)
    requires Run(states, events) && i < |states| && p < |states[i].pruners| && d < |states[i].leases|
    requires states[i].leases[d].InUse() && states[i].pruners[p].phase.Idle? && f in states[i].leases[d].files
    ensures Enabled(states[i], ListFile(p, d, f))
      <==> d in states[i].pruners[p].verdicts && states[i].pruners[p].verdicts[d] == Transient
  {
    RunKeepsVerdicts(states, events, i);
    assert VerdictsHold(states[i], states[i].pruners[p]);
    var q := states[i].pruners[p];
    if d in q.verdicts {
      assert q.verdicts[d].AbandonedLease? ==> ClaimsAbandoned(q, d);
      ListingFollowsVerdict(q.verdicts[d], states[i].leases[d].files[f].modified, q.inventoryTime);
    }
  }

  lemma ListingFollowsVerdict(r: DirectoryRetention, modified: nat, inventoryTime: nat)
    requires !r.AbandonedLease?
    ensures ListsAsReclaimable(r, modified, inventoryTime) <==> r == Transient
  {
    var path := [TRANSIENT_DIRECTORY, "lease", "file"];
    assert path[0] == TRANSIENT_DIRECTORY && |path| == 3;
  }

  predicate HoldsTransient(q: Pruner, d: nat) { d in q.verdicts && q.verdicts[d] == Transient }

  lemma TransientComesFrom(s: State, e: Event, p: nat, d: nat)
    requires Enabled(s, e) && p < |Step(s, e).pruners| && HoldsTransient(Step(s, e).pruners[p], d)
    ensures p < |s.pruners| && (HoldsTransient(s.pruners[p], d) || e == InspectNoMarker(p, d))
  {
    PrunerCountStays(s, e);
    if !IsPrunerEvent(e) || e.p != p {
      OtherPrunersKeepVerdicts(s, e, p);
    }
  }

  /** How a pruner comes to hold a `Transient` verdict on a directory that is in use after
    * step `i`: it takes it now, before the marker, or it held it already. */
  predicate VerdictOrigin(states: seq<State>, events: seq<Event>, i: nat, p: nat, d: nat) {
    && i < |states| && i < |events| && d < |states[i].leases|
    && var l := states[i].leases[d];
    if events[i] == InspectNoMarker(p, d) then l.owner.MadeDirectory? || l.owner.HoldsLock?
    else p < |states[i].pruners| && HoldsTransient(states[i].pruners[p], d) && l.InUse()
  }

  predicate TransientInUse(s: State, p: nat, d: nat) {
    p < |s.pruners| && d < |s.leases| && s.leases[d].InUse() && HoldsTransient(s.pruners[p], d)
  }

  /** What is not there has not been inspected. */
  predicate UnbornUninspected(s: State) {
    forall p, d :: 0 <= p < |s.pruners| && 0 <= d < |s.leases| && s.leases[d].owner.Unborn? ==>
      !HoldsTransient(s.pruners[p], d)
  }

  lemma StaysUnborn(s: State, e: Event, p: nat, d: nat)
    requires Enabled(s, e) && d < |s.leases| == |Step(s, e).leases| && Step(s, e).leases[d].owner.Unborn?
    ensures s.leases[d].owner.Unborn? && e != InspectNoMarker(p, d)
  {
  }

  lemma StepKeepsUninspected(s: State, e: Event)
    requires Enabled(s, e) && UnbornUninspected(s)
    ensures UnbornUninspected(Step(s, e))
  {
    var t := Step(s, e);
    LeaseCountStays(s, e);
    forall p, d | 0 <= p < |t.pruners| && 0 <= d < |t.leases| && t.leases[d].owner.Unborn?
      ensures !HoldsTransient(t.pruners[p], d)
    {
      StaysUnborn(s, e, p, d);
      if HoldsTransient(t.pruners[p], d) {
        TransientComesFrom(s, e, p, d);
        assert false;
      }
    }
  }

  lemma {:induction false} RunKeepsUninspected(states: seq<State>, events: seq<Event>, i: nat)
    requires Run(states, events) && i < |states|
    ensures UnbornUninspected(states[i])
  {
    if i > 0 {
      RunKeepsUninspected(states, events, i - 1);
      StepKeepsUninspected(states[i - 1], events[i - 1]);
    }
  }

  lemma TransientInUseComesFrom(s: State, e: Event, p: nat, d: nat)
    requires Inv(s) && UnbornUninspected(s) && Enabled(s, e) && |s.leases| == |Step(s, e).leases|
    requires TransientInUse(Step(s, e), p, d)
    ensures
      if e == InspectNoMarker(p, d) then s.leases[d].owner.MadeDirectory? || s.leases[d].owner.HoldsLock?
      else p < |s.pruners| && HoldsTransient(s.pruners[p], d) && s.leases[d].InUse()
  {
    TransientComesFrom(s, e, p, d);
    StepIntoUse(s, e, d);
    assert LeaseInv(s.now, s.leases[d]);
  }

  lemma VerdictsHaveOrigins(states: seq<State>, events: seq<Event>, i: nat, p: nat, d: nat)
    requires Run(states, events) && i < |events| && TransientInUse(states[i + 1], p, d)
    ensures VerdictOrigin(states, events, i, p, d)
  {
    LeaseCountStays(states[i], events[i]);
    RunKeepsInv(states, events, i);
    RunKeepsUninspected(states, events, i);
    TransientInUseComesFrom(states[i], events[i], p, d);
  }

  /** An inspection before the marker. */
  predicate EarlyInspection(states: seq<State>, events: seq<Event>, j: nat, p: nat, d: nat) {
    && j < |events| && j < |states| && events[j] == InspectNoMarker(p, d) && d < |states[j].leases|
    && (states[j].leases[d].owner.MadeDirectory? || states[j].leases[d].owner.HoldsLock?)
  }

  lemma {:induction false} TraceVerdict(states: seq<State>, events: seq<Event>, i: nat, p: nat, d: nat) returns (j: nat)
    requires i < |states| && TransientInUse(states[i], p, d) && !TransientInUse(states[0], p, d)
    requires forall k: nat :: k < i && TransientInUse(states[k + 1], p, d) ==> VerdictOrigin(states, events, k, p, d)
    ensures j < i && EarlyInspection(states, events, j, p, d)
  {
    assert VerdictOrigin(states, events, i - 1, p, d);
    if events[i - 1] == InspectNoMarker(p, d) {
      j := i - 1;
    } else {
      j := TraceVerdict(states, events, i - 1, p, d);
    }
  }

  /** Such a verdict on a directory in use was taken before its marker was written: one
    * taken when the marker was there never lets a pruner list its files. */
  lemma TransientVerdictPredatesMarker(states: seq<State>, events: seq<Event>, i: nat, p: nat, d: nat) returns (j: nat)
    requires Run(states, events) && i < |states| && TransientInUse(states[i], p, d)
    ensures j < i && EarlyInspection(states, events, j, p, d)
  {
    forall k: nat | k < i && TransientInUse(states[k + 1], p, d) ensures VerdictOrigin(states, events, k, p, d) {
      VerdictsHaveOrigins(states, events, k, p, d);
    }
    j := TraceVerdict(states, events, i, p, d);
  }

  /** Such a verdict does get a pruner that far: there is a run in which it holds a file of
    * an active owner open as a candidate.  Only the check before unlinking stops it. */
  lemma ClassificationCanBeStale() returns (states: seq<State>, events: seq<Event>)
    ensures Run(states, events)
    ensures var s := Last(states);
      && |s.leases| == 1 && |s.pruners| == 1
      && s.leases[0].owner.Active? && s.leases[0].lock.ByOwner?
      && s.pruners[0].phase.Opened? && Unchanged(s, s.pruners[0].phase.target)
  {
    states, events := InspectionBeforeMarker();
    var more, moreEvents := ActivationAfterInspection();
    states := Join(states, events, more, moreEvents);
    events := events + moreEvents;
    more, moreEvents := ListingAfterwards();
    states := Join(states, events, more, moreEvents);
    events := events + moreEvents;
  }
}
