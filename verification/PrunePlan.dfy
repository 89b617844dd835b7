/** Planning retention, and applying it.
  *
  * The plan deletes reclaimable files in one fixed order until the limits hold.
  * The dry run reports the plan; apply performs it file by file and re-reads the
  * free space after each deletion.
  */
module PrunePlan {
  import opened Orders
  import opened StorageUsage
  import opened Retention
  import I = Inventory
  import opened Wrappers

  type Entry = I.Entry

  datatype Item = Item(path: Path, bytes: nat, modified: nat)

  datatype Snapshot = Snapshot(usage: Usage, protected: Usage, reclaimable: Usage, available: nat,
                               scannedEntries: nat, unsafeEntries: nat, limits: LimitState)

  datatype Blocker =
    | UnsafeEntries(count: nat)
    | InsufficientReclaimable(requiredBytes: nat, requiredFiles: nat, reclaimableBytes: nat, reclaimableFiles: nat)
    | PruneItemLimit(requiredItems: nat, maxPruneItems: nat)

  datatype Plan = Plan(projected: Snapshot, items: seq<Item>, reclaimed: Usage, blocker: Option<Blocker>)

  function SnapshotOf(inv: I.Inventory): Snapshot {
    Snapshot(inv.usage, inv.protected, inv.reclaimable, inv.available, inv.scannedEntries, inv.unsafeEntries, inv.limits)
  }

  function ItemOf(e: Entry): Item { Item(e.path, e.bytes, e.modified) }

  function ItemsOf(es: seq<Entry>): (r: seq<Item>)
    ensures |r| == |es| && forall i :: 0 <= i < |r| ==> r[i] == ItemOf(es[i])
  {
    seq(|es|, i requires 0 <= i < |es| => ItemOf(es[i]))
  }

  // ----- Candidates -----

  predicate IsCandidate(e: Entry) {
    e.classification.Reclaimable? && e.kind.RegularFile? && !e.UnsafeForApply()
  }

  function Filter(es: seq<Entry>): seq<Entry> {
    if es == [] then [] else if IsCandidate(es[0]) then [es[0]] + Filter(es[1..]) else Filter(es[1..])
  }

  predicate IsLeaseMarker(path: Path) {
    path != [] && path[|path| - 1] == TRANSIENT_LEASE_MARKER
  }

  /** Lease markers last, then oldest, then by path. */
  predicate CandidateLe(a: Entry, b: Entry) {
    var am, bm := IsLeaseMarker(a.path), IsLeaseMarker(b.path);
    if am != bm then bm
    else if a.modified != b.modified then a.modified < b.modified
    else PathOrder()(a.path, b.path)
  }

  function CandidateOrder(): (Entry, Entry) -> bool { (a: Entry, b: Entry) => CandidateLe(a, b) }

  function ReclaimableCandidates(entries: seq<Entry>): seq<Entry> {
    Sort(CandidateOrder(), Filter(entries))
  }

  // ----- The simulation, as a function of how many candidates are gone -----

  function Gone(cs: seq<Entry>): Usage {
    if cs == [] then Usage(0, 0) else Gone(cs[..|cs| - 1]).Plus(Usage(cs[|cs| - 1].bytes, 1))
  }

  function After(policy: Policy, inv: I.Inventory, cs: seq<Entry>): Snapshot
    requires Gone(cs).AtMost(inv.usage) && Gone(cs).AtMost(inv.reclaimable)
  {
    var usage := inv.usage.Minus(Gone(cs));
    var available := SaturatingAdd(inv.available, Gone(cs).bytes);
    SnapshotOf(inv).(usage := usage, reclaimable := inv.reclaimable.Minus(Gone(cs)), available := available,
                     limits := Evaluate(policy, usage, available))
  }

  /** The limits hold once the first `k` candidates are gone. */
  predicate WithinAfter(policy: Policy, inv: I.Inventory, k: nat)
    requires k <= |ReclaimableCandidates(inv.entries)|
  {
    var gone := Gone(ReclaimableCandidates(inv.entries)[..k]);
    && inv.usage.bytes - gone.bytes <= policy.maxBytes
    && inv.usage.files - gone.files <= policy.maxFiles
    && policy.minFreeBytes <= SaturatingAdd(inv.available, gone.bytes)
  }

  /** What planning relies on; the inventory walk establishes it. */
  predicate Sound(policy: Policy, inv: I.Inventory) {
    && policy.Validate() && inv.available <= U64_MAX
    && inv.usage == I.TallyAll(inv.entries).all
    && inv.reclaimable == I.TallyAll(inv.entries).reclaimable
    && inv.protected == I.TallyAll(inv.entries).kept
    && inv.unsafeEntries == I.TallyAll(inv.entries).unsafeEntries
    && inv.usage.FitsU64()
    && inv.limits == Evaluate(policy, inv.usage, inv.available)
    && I.PathsDistinct(inv.entries)
  }

  // ----- The candidate order -----

  lemma CandidateOrderIsPreorder()
    ensures TotalPreorder(CandidateOrder())
  {
    PathOrderIsTotal();
    var le := PathOrder();
    forall a: Entry, b: Entry ensures CandidateOrder()(a, b) || CandidateOrder()(b, a) {
      assert le(a.path, b.path) || le(b.path, a.path);
    }
    forall a: Entry, b: Entry, c: Entry | CandidateOrder()(a, b) && CandidateOrder()(b, c) ensures CandidateOrder()(a, c) {
      assert le(a.path, b.path) && le(b.path, c.path) ==> le(a.path, c.path);
    }
  }

  lemma {:induction false} FilterKeeps(es: seq<Entry>, e: Entry)
    ensures e in Filter(es) <==> e in es && IsCandidate(e)
  {
    if es != [] {
      FilterKeeps(es[1..], e);
      assert e in es <==> e == es[0] || e in es[1..];
    }
  }

  lemma {:induction false} FilterConcat(a: seq<Entry>, b: seq<Entry>)
    ensures Filter(a + b) == Filter(a) + Filter(b)
  {
    if a == [] {
      assert a + b == b;
    } else {
      assert (a + b)[1..] == a[1..] + b;
      FilterConcat(a[1..], b);
    }
  }

  lemma FilterAround(x: seq<Entry>, e: Entry, y: seq<Entry>)
    ensures multiset(Filter(x + [e] + y)) == multiset(Filter([e])) + multiset(Filter(x + y))
  {
    FilterConcat(x + [e], y);
    FilterConcat(x, [e]);
    FilterConcat(x, y);
    MoveToFront(Filter(x), Filter([e]), Filter(y));
  }

  lemma {:induction false} FilterPermutation(a: seq<Entry>, b: seq<Entry>)
    requires multiset(a) == multiset(b)
    ensures multiset(Filter(a)) == multiset(Filter(b))
    decreases |a|
  {
    SameMultisetSameMembers(a, b);
    if a == [] {
      assert b == [];
    } else {
      var e := a[0];
      var w, x := SplitAround(a, e);
      var y, z := SplitAround(b, e);
      FilterPermutation(w + x, y + z);
      FilterAround(w, e, x);
      FilterAround(y, e, z);
    }
  }

  lemma CandidatesAre(entries: seq<Entry>)
    ensures multiset(ReclaimableCandidates(entries)) == multiset(Filter(entries))
    ensures forall e :: e in ReclaimableCandidates(entries) <==> e in entries && IsCandidate(e)
    ensures Sorted(CandidateOrder(), ReclaimableCandidates(entries))
  {
    SortPermutes(CandidateOrder(), Filter(entries));
    SameMultisetSameMembers(ReclaimableCandidates(entries), Filter(entries));
    forall e ensures e in Filter(entries) <==> e in entries && IsCandidate(e) {
      FilterKeeps(entries, e);
    }
    CandidateOrderIsPreorder();
    SortSorts(CandidateOrder(), Filter(entries));
  }

  /** The file the owner of a lease directory marks it by. */
  predicate MarksALease(path: Path) { path != [] && path[|path| - 1] == ".hardknock-active-v1" }

  /** The order, in the files' own terms: lease markers last; among markers and among the rest
    * the oldest first; among those of one time by path. */
  ghost predicate DeletedInOrder(path: Path, modified: nat, laterPath: Path, laterModified: nat) {
    && (MarksALease(path) ==> MarksALease(laterPath))
    && (MarksALease(path) == MarksALease(laterPath) ==>
          && modified <= laterModified
          && (modified == laterModified ==> PathBefore(path, laterPath)))
  }

  lemma CandidatesAreOrdered(entries: seq<Entry>, i: nat, j: nat)
    requires i < j < |ReclaimableCandidates(entries)|
    ensures
      var a, b := ReclaimableCandidates(entries)[i], ReclaimableCandidates(entries)[j];
      DeletedInOrder(a.path, a.modified, b.path, b.modified)
  {
    var a, b := ReclaimableCandidates(entries)[i], ReclaimableCandidates(entries)[j];
    CandidatesAre(entries);
    assert CandidateOrder()(a, b);
    PathOrderMeans(a.path, b.path);
  }

  /** Two inventories of the same files have the same candidates in the same order. */
  lemma CandidatesForgetListingOrder(a: seq<Entry>, b: seq<Entry>)
    requires multiset(a) == multiset(b) && I.PathsDistinct(a)
    ensures ReclaimableCandidates(a) == ReclaimableCandidates(b)
  {
    FilterPermutation(a, b);
    CandidateOrderIsPreorder();
    PathOrderIsTotal();
    forall x, y | x in Filter(a) && y in Filter(a) && CandidateOrder()(x, y) && CandidateOrder()(y, x) ensures x == y {
      FilterKeeps(a, x);
      FilterKeeps(a, y);
      assert PathOrder()(x.path, y.path) && PathOrder()(y.path, x.path);
      assert a[Position(a, x)].path == a[Position(a, y)].path;
    }
    SortForgetsOrder(CandidateOrder(), Filter(a), Filter(b));
  }

  // ----- Bounds on what is gone -----

  lemma {:induction false} GoneIsSum(cs: seq<Entry>)
    requires forall e :: e in cs ==> IsCandidate(e)
    ensures Gone(cs).bytes == I.Sum(cs, I.ReclaimableBytes) && Gone(cs).files == I.Sum(cs, I.ReclaimableFiles) == |cs|
  {
    if cs != [] {
      var init, last := cs[..|cs| - 1], cs[|cs| - 1];
      GoneIsSum(init);
      assert cs == init + [last];
      I.SumSnoc(init, last, I.ReclaimableBytes);
      I.SumSnoc(init, last, I.ReclaimableFiles);
      assert IsCandidate(last);
    }
  }

  lemma {:induction false} FilterSums(es: seq<Entry>)
    ensures I.Sum(Filter(es), I.ReclaimableBytes) <= I.Sum(es, I.ReclaimableBytes)
    ensures I.Sum(Filter(es), I.ReclaimableFiles) <= I.Sum(es, I.ReclaimableFiles)
  {
    if es != [] {
      FilterSums(es[1..]);
      if IsCandidate(es[0]) {
        assert Filter(es)[1..] == Filter(es[1..]);
      }
    }
  }

  lemma GonePrefix(cs: seq<Entry>, i: nat, j: nat)
    requires i <= j <= |cs|
    ensures Gone(cs[..i]).AtMost(Gone(cs[..j]))
    decreases j
  {
    if i < j {
      GonePrefix(cs, i, j - 1);
      assert cs[..j][..j - 1] == cs[..j - 1];
    }
  }

  lemma GoneStep(cs: seq<Entry>, k: nat)
    requires k < |cs|
    ensures Gone(cs[..k + 1]) == Gone(cs[..k]).Plus(Usage(cs[k].bytes, 1))
  {
    assert cs[..k + 1][..k] == cs[..k];
  }

  /** No prefix of the candidates is more than what is reclaimable. */
  lemma GoneIsCovered(policy: Policy, inv: I.Inventory, k: nat)
    requires Sound(policy, inv) && k <= |ReclaimableCandidates(inv.entries)|
    ensures var gone := Gone(ReclaimableCandidates(inv.entries)[..k]);
      gone.AtMost(inv.reclaimable) && gone.AtMost(inv.usage) && gone.files == k
  {
    var cs := ReclaimableCandidates(inv.entries);
    CandidatesAre(inv.entries);
    GonePrefix(cs, k, |cs|);
    assert cs[..|cs|] == cs;
    GoneIsSum(cs);
    GoneIsSum(cs[..k]);
    I.SumPermutation(cs, Filter(inv.entries), I.ReclaimableBytes);
    I.SumPermutation(cs, Filter(inv.entries), I.ReclaimableFiles);
    FilterSums(inv.entries);
    I.UsageSplits(inv.entries);
  }

  lemma WithinIsMonotone(policy: Policy, inv: I.Inventory, i: nat, j: nat)
    requires i <= j <= |ReclaimableCandidates(inv.entries)| && WithinAfter(policy, inv, i)
    ensures WithinAfter(policy, inv, j)
  {
    GonePrefix(ReclaimableCandidates(inv.entries), i, j);
  }

  // ----- The plan -----

  /** The first number of deletions from `k` on that brings the limits back. */
  function FirstWithin(policy: Policy, inv: I.Inventory, k: nat): (n: nat)
    requires k <= |ReclaimableCandidates(inv.entries)|
    ensures k <= n <= |ReclaimableCandidates(inv.entries)|
    ensures forall j :: k <= j < n ==> !WithinAfter(policy, inv, j)
    ensures n < |ReclaimableCandidates(inv.entries)| ==> WithinAfter(policy, inv, n)
    decreases |ReclaimableCandidates(inv.entries)| - k
  {
    if k == |ReclaimableCandidates(inv.entries)| || WithinAfter(policy, inv, k) then k else FirstWithin(policy, inv, k + 1)
  }

  function Needed(policy: Policy, inv: I.Inventory): nat { FirstWithin(policy, inv, 0) }

  function Min(a: nat, b: nat): nat { if a <= b then a else b }

  function Max(a: nat, b: nat): nat { if a >= b then a else b }

  /** One deletion, as the loops account for it. */
  function Account(policy: Policy, s: Snapshot, bytes: nat, available: nat): Checked<Snapshot> {
    var usage, reclaimable := CheckedSub(s.usage, Usage(bytes, 1)), CheckedSub(s.reclaimable, Usage(bytes, 1));
    if usage.ArithmeticOverflow? || reclaimable.ArithmeticOverflow? then ArithmeticOverflow
    else Value(s.(usage := usage.value, reclaimable := reclaimable.value, available := available,
                  limits := Evaluate(policy, usage.value, available)))
  }

  lemma AfterNothing(policy: Policy, inv: I.Inventory)
    requires Sound(policy, inv)
    ensures Gone([]) == Usage(0, 0) && After(policy, inv, []) == SnapshotOf(inv)
  {
  }

  predicate Fits(inv: I.Inventory, cs: seq<Entry>) {
    Gone(cs).AtMost(inv.usage) && Gone(cs).AtMost(inv.reclaimable)
  }

  /** Accounting one more candidate never underflows and lands on the closed form. */
  lemma AccountLandsOnAfter(policy: Policy, inv: I.Inventory, k: nat)
    requires Sound(policy, inv) && k < |ReclaimableCandidates(inv.entries)|
    ensures var cs := ReclaimableCandidates(inv.entries);
      && Fits(inv, cs[..k]) && Fits(inv, cs[..k + 1])
      && var s := After(policy, inv, cs[..k]);
         && Account(policy, s, cs[k].bytes, SaturatingAdd(s.available, cs[k].bytes)) == Value(After(policy, inv, cs[..k + 1]))
         && CheckedAdd(Gone(cs[..k]), Usage(cs[k].bytes, 1)) == Value(Gone(cs[..k + 1]))
  {
    GoneIsCovered(policy, inv, k);
    GoneIsCovered(policy, inv, k + 1);
    GoneStep(ReclaimableCandidates(inv.entries), k);
  }

  lemma AfterShowsLimits(policy: Policy, inv: I.Inventory, k: nat)
    requires Sound(policy, inv) && k <= |ReclaimableCandidates(inv.entries)|
    ensures var cs := ReclaimableCandidates(inv.entries)[..k];
      && Fits(inv, cs)
      && (After(policy, inv, cs).limits.withinLimits <==> WithinAfter(policy, inv, k))
  {
    GoneIsCovered(policy, inv, k);
  }

  /** What stands in the way of applying, if anything does. */
  function BlockerFor(policy: Policy, inv: I.Inventory, needed: nat, sufficient: bool): Option<Blocker> {
    if inv.unsafeEntries > 0 then Some(UnsafeEntries(inv.unsafeEntries))
    else if !sufficient then
      Some(InsufficientReclaimable(Max(inv.limits.bytesOver, inv.limits.freeSpaceShortfall), inv.limits.filesOver,
                                   inv.reclaimable.bytes, inv.reclaimable.files))
    else if needed > policy.maxPruneItems then Some(PruneItemLimit(needed, policy.maxPruneItems))
    else None
  }

  predicate IsPlan(policy: Policy, inv: I.Inventory, plan: Plan)
  {
    var cs := ReclaimableCandidates(inv.entries);
    var n := Needed(policy, inv);
    var shown := cs[..Min(n, policy.maxPruneItems)];
    && Fits(inv, shown)
    && plan.items == ItemsOf(shown)
    && plan.reclaimed == Gone(shown)
    && plan.projected == After(policy, inv, shown)
    && plan.blocker == BlockerFor(policy, inv, n, WithinAfter(policy, inv, n))
  }

  /** Between two iterations: the first `k` candidates are accounted for. */
  predicate Simulated(policy: Policy, inv: I.Inventory, k: nat, s: Snapshot, items: seq<Item>, reclaimed: Usage) {
    var cs := ReclaimableCandidates(inv.entries);
    && k <= |cs| && Fits(inv, cs[..k])
    && s == After(policy, inv, cs[..k]) && items == ItemsOf(cs[..k]) && reclaimed == Gone(cs[..k])
  }

  lemma SimulatedStart(policy: Policy, inv: I.Inventory)
    requires Sound(policy, inv)
    ensures Simulated(policy, inv, 0, SnapshotOf(inv), [], Usage(0, 0))
  {
    AfterNothing(policy, inv);
    assert ReclaimableCandidates(inv.entries)[..0] == [];
  }

  lemma SimulatedStep(policy: Policy, inv: I.Inventory, k: nat, s: Snapshot, items: seq<Item>, reclaimed: Usage)
    requires Sound(policy, inv) && Simulated(policy, inv, k, s, items, reclaimed) && k < |ReclaimableCandidates(inv.entries)|
    ensures var c := ReclaimableCandidates(inv.entries)[k];
      var next, sum := Account(policy, s, c.bytes, SaturatingAdd(s.available, c.bytes)), CheckedAdd(reclaimed, Usage(c.bytes, 1));
      next.Value? && sum.Value? && Simulated(policy, inv, k + 1, next.value, items + [ItemOf(c)], sum.value)
  {
    AccountLandsOnAfter(policy, inv, k);
    var cs := ReclaimableCandidates(inv.entries);
    assert cs[..k + 1] == cs[..k] + [cs[k]];
  }

  method BuildPrunePlan(policy: Policy, inv: I.Inventory) returns (r: Checked<Plan>)
    requires Sound(policy, inv)
    ensures r.Value? && IsPlan(policy, inv, r.value)
  {
    var candidates := ReclaimableCandidates(inv.entries);
    var simulated, items, reclaimed := SnapshotOf(inv), [], Usage(0, 0);
    var k := 0;
    SimulatedStart(policy, inv);
    AfterShowsLimits(policy, inv, 0);
    while k < |candidates| && !simulated.limits.withinLimits
      invariant Simulated(policy, inv, k, simulated, items, reclaimed)
      invariant k <= Needed(policy, inv)
      invariant simulated.limits.withinLimits <==> WithinAfter(policy, inv, k)
    {
      var c := candidates[k];
      SimulatedStep(policy, inv, k, simulated, items, reclaimed);
      AfterShowsLimits(policy, inv, k + 1);
      var next, sum := Account(policy, simulated, c.bytes, SaturatingAdd(simulated.available, c.bytes)),
                       CheckedAdd(reclaimed, Usage(c.bytes, 1));
      if next.ArithmeticOverflow? || sum.ArithmeticOverflow? {
        return ArithmeticOverflow;
      }
      simulated, reclaimed, items := next.value, sum.value, items + [ItemOf(c)];
      k := k + 1;
    }
    assert k == Needed(policy, inv);
    var blocker := BlockerFor(policy, inv, |items|, simulated.limits.withinLimits);
    if |items| > policy.maxPruneItems {
      var some := ItemsOf(candidates[..k])[..policy.maxPruneItems];
      assert some == ItemsOf(candidates[..policy.maxPruneItems]);
      r := Truncate(policy, inv, some, blocker);
    } else {
      r := Value(Plan(simulated, items, reclaimed, blocker));
    }
  }

  /** A plan over the item limit shows only the first items, accounted for afresh. */
  method Truncate(policy: Policy, inv: I.Inventory, items: seq<Item>, blocker: Option<Blocker>) returns (r: Checked<Plan>)
    requires Sound(policy, inv) && |items| <= |ReclaimableCandidates(inv.entries)|
    requires items == ItemsOf(ReclaimableCandidates(inv.entries)[..|items|])
    ensures r.Value?
    ensures Simulated(policy, inv, |items|, r.value.projected, r.value.items, r.value.reclaimed) && r.value.blocker == blocker
  {
    var projected, reclaimed := SnapshotOf(inv), Usage(0, 0);
    SimulatedStart(policy, inv);
    for k := 0 to |items|
      invariant Simulated(policy, inv, k, projected, items[..k], reclaimed)
    {
      SimulatedStep(policy, inv, k, projected, items[..k], reclaimed);
      assert items[..k + 1] == items[..k] + [items[k]];
      var next, sum := Account(policy, projected, items[k].bytes, SaturatingAdd(projected.available, items[k].bytes)),
                       CheckedAdd(reclaimed, Usage(items[k].bytes, 1));
      if next.ArithmeticOverflow? || sum.ArithmeticOverflow? {
        return ArithmeticOverflow;
      }
      projected, reclaimed := next.value, sum.value;
    }
    assert items[..|items|] == items;
    r := Value(Plan(projected, items, reclaimed, blocker));
  }

  // ----- What a plan promises -----

  /** The walk's inventory is one that planning can rely on. */
  lemma WalkedInventoryIsSound(inv: I.Inventory, policy: Policy, root: seq<I.Child>, now: nat)
    requires policy.Validate() && inv.available <= U64_MAX && I.WellFormed(root)
    requires I.Describes(inv, policy, root, now, inv.available)
    requires I.Count(root) <= policy.maxScanEntries && inv.usage.bytes <= U64_MAX
    ensures Sound(policy, inv)
  {
    var all := I.Entries([], root, Protected, now);
    I.InventoryIsExact(inv, policy, root, now, inv.available);
    I.TallyPermutation(inv.entries, all);
    FilesAtMostCount([], root, Protected, now);
    assert inv.usage.files == I.Sum(all, I.AllFiles) <= I.Count(root) <= U64_MAX;
    assert inv.usage.FitsU64();
  }

  lemma {:induction false} FilesAtMostCount(dir: Path, cs: seq<I.Child>, retention: DirectoryRetention, now: nat)
    ensures I.Sum(I.Entries(dir, cs, retention, now), I.AllFiles) <= I.Count(cs)
    decreases cs
  {
    if cs != [] {
      var path := dir + [cs[0].name];
      I.SumConcat(I.NodeEntries(path, cs[0].node, retention, now), I.Entries(dir, cs[1..], retention, now), I.AllFiles);
      FilesAtMostCount(dir, cs[1..], retention, now);
      match cs[0].node {
        case Directory(lease, children) => FilesAtMostCount(path, children, I.RetentionForDirectory(path, retention, lease), now);
        case Leaf(_, _, _, _) => I.SumSingle(I.EntryOf(path, cs[0].node, retention, now), I.AllFiles);
      }
    }
  }

  /** An unblocked plan is the shortest prefix of the candidate order that brings
    * the snapshot within limits, and it is within the item limit. */
  lemma UnblockedPlanIsShortest(policy: Policy, inv: I.Inventory, plan: Plan)
    requires Sound(policy, inv) && IsPlan(policy, inv, plan) && plan.blocker.None?
    ensures var cs, n := ReclaimableCandidates(inv.entries), |plan.items|;
      && n <= |cs| && n <= policy.maxPruneItems
      && plan.items == ItemsOf(cs[..n])
      && WithinAfter(policy, inv, n) && (forall j :: 0 <= j < n ==> !WithinAfter(policy, inv, j))
      && plan.projected.limits.withinLimits
  {
    AfterShowsLimits(policy, inv, Needed(policy, inv));
  }

  /** Exactly when each blocker is reported. */
  lemma BlockersExactly(policy: Policy, inv: I.Inventory, plan: Plan)
    requires Sound(policy, inv) && IsPlan(policy, inv, plan)
    ensures var all := |ReclaimableCandidates(inv.entries)|;
      var unsafe, enough := inv.unsafeEntries > 0, WithinAfter(policy, inv, all);
      var few := exists n :: 0 <= n <= all && n <= policy.maxPruneItems && WithinAfter(policy, inv, n);
      && (plan.blocker.None? <==> !unsafe && few)
      && (plan.blocker.Some? && plan.blocker.value.UnsafeEntries? <==> unsafe)
      && (plan.blocker.Some? && plan.blocker.value.InsufficientReclaimable? <==> !unsafe && !enough)
      && (plan.blocker.Some? && plan.blocker.value.PruneItemLimit? <==> !unsafe && enough && !few)
  {
    var all, n := |ReclaimableCandidates(inv.entries)|, Needed(policy, inv);
    if WithinAfter(policy, inv, n) {
      WithinIsMonotone(policy, inv, n, all);
      forall m | 0 <= m <= all && m <= policy.maxPruneItems && WithinAfter(policy, inv, m) ensures n <= m {
        if m < n {
          assert false;
        }
      }
    } else {
      forall m | 0 <= m <= all ensures !WithinAfter(policy, inv, m) {
        if WithinAfter(policy, inv, m) {
          WithinIsMonotone(policy, inv, m, all);
        }
      }
    }
  }

  /** `bytes` is the least amount that has to be deleted for usage and free space to be within
    * limits, `files` the least number of files. */
  predicate LeastRequired(policy: Policy, usage: Usage, available: nat, bytes: nat, files: nat) {
    && usage.bytes <= policy.maxBytes + bytes && policy.minFreeBytes <= available + bytes
    && (bytes > 0 ==> usage.bytes == policy.maxBytes + bytes || policy.minFreeBytes == available + bytes)
    && usage.files <= policy.maxFiles + files && (files > 0 ==> usage.files == policy.maxFiles + files)
  }

  /** The numbers that a blocker reports. */
  lemma BlockersTell(policy: Policy, inv: I.Inventory, plan: Plan)
    requires Sound(policy, inv) && IsPlan(policy, inv, plan) && plan.blocker.Some?
    ensures
      match plan.blocker.value
      case UnsafeEntries(count) => count == inv.unsafeEntries
      case InsufficientReclaimable(requiredBytes, requiredFiles, bytes, files) =>
        && LeastRequired(policy, inv.usage, inv.available, requiredBytes, requiredFiles)
        && bytes == inv.reclaimable.bytes && files == inv.reclaimable.files
      case PruneItemLimit(required, limit) =>
        && limit == policy.maxPruneItems && required <= |ReclaimableCandidates(inv.entries)|
        && WithinAfter(policy, inv, required) && forall j: nat :: j < required ==> !WithinAfter(policy, inv, j)
  {
  }

  /** Nothing is created or lost by planning, and nothing protected is in a plan. */
  lemma PlanConserves(policy: Policy, inv: I.Inventory, plan: Plan)
    requires Sound(policy, inv) && IsPlan(policy, inv, plan)
    ensures plan.projected.usage.Plus(plan.reclaimed) == inv.usage
    ensures plan.projected.reclaimable.Plus(plan.reclaimed) == inv.reclaimable
    ensures plan.projected.protected == inv.protected
    ensures plan.projected.usage == plan.projected.protected.Plus(plan.projected.reclaimable)
    ensures plan.reclaimed.files == |plan.items| <= policy.maxPruneItems
    ensures forall i, j :: 0 <= i < j < |plan.items| ==> plan.items[i].path != plan.items[j].path
  {
    var cs := ReclaimableCandidates(inv.entries);
    GoneIsCovered(policy, inv, |plan.items|);
    I.UsageSplits(inv.entries);
    CandidatesHaveDistinctPaths(inv.entries);
  }

  /** The rest of what is projected: free space grows by what is reclaimed, and the limits are
    * judged on the projected numbers. */
  lemma PlanProjects(policy: Policy, inv: I.Inventory, plan: Plan)
    requires Sound(policy, inv) && IsPlan(policy, inv, plan)
    ensures plan.projected.scannedEntries == inv.scannedEntries && plan.projected.unsafeEntries == inv.unsafeEntries
    ensures plan.projected.available == Min(inv.available + plan.reclaimed.bytes, 0xFFFF_FFFF_FFFF_FFFF)
    ensures plan.projected.limits == Evaluate(policy, plan.projected.usage, plan.projected.available)
  {
  }

  /** A plan lists the files in the order they are deleted in: markers last, then oldest, then
    * path. */
  lemma PlanIsOrdered(policy: Policy, inv: I.Inventory, plan: Plan, i: nat, j: nat)
    requires Sound(policy, inv) && IsPlan(policy, inv, plan) && i < j < |plan.items|
    ensures DeletedInOrder(plan.items[i].path, plan.items[i].modified, plan.items[j].path, plan.items[j].modified)
  {
    CandidatesAreOrdered(inv.entries, i, j);
  }

  lemma {:induction false} FilterKeepsDistinct(es: seq<Entry>)
    requires I.PathsDistinct(es)
    ensures I.PathsDistinct(Filter(es))
  {
    if es != [] {
      FilterKeepsDistinct(es[1..]);
      forall j | 0 <= j < |Filter(es[1..])| ensures Filter(es[1..])[j].path != es[0].path {
        FilterKeeps(es[1..], Filter(es[1..])[j]);
        assert es[1..][Position(es[1..], Filter(es[1..])[j])] == es[Position(es[1..], Filter(es[1..])[j]) + 1];
      }
    }
  }

  lemma CandidatesHaveDistinctPaths(entries: seq<Entry>)
    requires I.PathsDistinct(entries)
    ensures I.PathsDistinct(ReclaimableCandidates(entries))
  {
    FilterKeepsDistinct(entries);
    CandidatesAre(entries);
    I.DistinctPathsPermutation(Filter(entries), ReclaimableCandidates(entries));
  }

  /** From the tree to the plan: a planned file lies below `transient/`, and its own
    * lease directory, as the walk saw it, gives it up. */
  lemma PlanTakesOnlyWhatTheTreeGivesUp(policy: Policy, inv: I.Inventory, plan: Plan, root: seq<I.Child>, now: nat,
          i: nat)
    requires Sound(policy, inv) && IsPlan(policy, inv, plan) && i < |plan.items|
    requires I.WellFormed(root) && I.Describes(inv, policy, root, now, inv.available)
    ensures var item := plan.items[i];
      && I.GivenUp(root, item.path, item.modified, now)
      && var leaf := I.NodeAt(root, item.path);
         leaf != [] && leaf[0] == I.Leaf(I.RegularFile, item.bytes, item.modified, 1)
  {
    var e := ReclaimableCandidates(inv.entries)[i];
    CandidatesAre(inv.entries);
    assert e in ReclaimableCandidates(inv.entries);
    SameMultisetSameMembers(inv.entries, I.Entries([], root, Protected, now));
    I.ReclaimableExactlyWhen(root, now, e);
    I.ListingIsTheTrees(inv, policy, root, now, inv.available);
  }

  /** Every file of the tree that is given up, regular and with one link, is a candidate. */
  lemma EveryFileGivenUpIsACandidate(policy: Policy, inv: I.Inventory, root: seq<I.Child>, now: nat, path: Path)
    requires I.WellFormed(root) && I.Describes(inv, policy, root, now, inv.available)
    requires var leaf := I.NodeAt(root, path);
      leaf != [] && leaf[0].Leaf? && leaf[0].kind == I.RegularFile && leaf[0].links == 1
      && I.GivenUp(root, path, leaf[0].modified, now)
    ensures exists e :: e in ReclaimableCandidates(inv.entries) && e.path == path
  {
    I.ListingIsTheTrees(inv, policy, root, now, inv.available);
    var e :| e in inv.entries && e.path == path;
    SameMultisetSameMembers(inv.entries, I.Entries([], root, Protected, now));
    I.ReclaimableExactlyWhen(root, now, e);
    CandidatesAre(inv.entries);
  }

  // ----- Applying -----

  datatype ApplyError = PruneBlocked(blocker: Blocker) | EntryChanged(path: Path) | Overflow

  datatype Report = Report(before: Snapshot, projected: Snapshot, finalState: Snapshot, items: seq<Item>,
                           reclaimed: Usage, blocker: Option<Blocker>, limitsMet: bool)

  datatype Outcome = Applied(report: Report) | Refused(error: ApplyError)

  /** The file system as apply meets it: whether the k-th deletion succeeds, and the
    * free space read after it. */
  datatype World = World(unlinks: nat -> bool, free: nat -> nat)

  /** The limits hold after `k` deletions, by the free space read then. */
  predicate AppliedWithin(policy: Policy, inv: I.Inventory, world: World, k: nat)
    requires k <= |ReclaimableCandidates(inv.entries)|
  {
    var gone := Gone(ReclaimableCandidates(inv.entries)[..k]);
    && inv.usage.bytes - gone.bytes <= policy.maxBytes
    && inv.usage.files - gone.files <= policy.maxFiles
    && policy.minFreeBytes <= (if k == 0 then inv.available else world.free(k - 1))
  }

  /** Where the deletions stop. */
  predicate StopsAt(policy: Policy, inv: I.Inventory, world: World, k: nat) {
    && k <= |ReclaimableCandidates(inv.entries)| && k <= policy.maxPruneItems
    && (forall j :: 0 <= j < k ==> !AppliedWithin(policy, inv, world, j) && world.unlinks(j))
    && (|| k == |ReclaimableCandidates(inv.entries)| || k == policy.maxPruneItems
        || AppliedWithin(policy, inv, world, k) || !world.unlinks(k))
  }

  function FinalBlocker(policy: Policy, finalState: Snapshot, deleted: nat): Option<Blocker> {
    if finalState.limits.withinLimits then None
    else if finalState.unsafeEntries > 0 then Some(UnsafeEntries(finalState.unsafeEntries))
    else if deleted >= policy.maxPruneItems && finalState.reclaimable.files > 0 then
      Some(PruneItemLimit(SaturatingAdd(policy.maxPruneItems, 1), policy.maxPruneItems))
    else
      Some(InsufficientReclaimable(Max(finalState.limits.bytesOver, finalState.limits.freeSpaceShortfall),
                                   finalState.limits.filesOver, finalState.reclaimable.bytes, finalState.reclaimable.files))
  }

  /** What is reported as still in the way after the deletions: nothing exactly when the limits
    * hold then, and otherwise the first of these. */
  lemma FinalBlockerMeans(policy: Policy, s: Snapshot, deleted: nat)
    requires policy.Validate() && s.limits == Evaluate(policy, s.usage, s.available)
    ensures
      var within := s.usage.bytes <= policy.maxBytes && s.usage.files <= policy.maxFiles && policy.minFreeBytes <= s.available;
      var exhausted := deleted >= policy.maxPruneItems && s.reclaimable.files > 0;
      match FinalBlocker(policy, s, deleted)
      case None => within
      case Some(UnsafeEntries(count)) => !within && count == s.unsafeEntries > 0
      case Some(PruneItemLimit(required, limit)) =>
        && !within && s.unsafeEntries == 0 && exhausted && limit == policy.maxPruneItems
        && (required == limit + 1 || required == limit == 0xFFFF_FFFF_FFFF_FFFF)
      case Some(InsufficientReclaimable(bytes, files, reclaimableBytes, reclaimableFiles)) =>
        && !within && s.unsafeEntries == 0 && !exhausted
        && LeastRequired(policy, s.usage, s.available, bytes, files)
        && reclaimableBytes == s.reclaimable.bytes && reclaimableFiles == s.reclaimable.files
  {
  }

  /** How the deletions ended. */
  datatype Ending = Done | Changed(path: Path) | Overflowed

  /** The deletion loop of apply. */
  method DeleteCandidates(policy: Policy, inv: I.Inventory, world: World)
      returns (removed: seq<Entry>, reclaimed: Usage, ending: Ending)
    requires Sound(policy, inv)
    ensures removed <= ReclaimableCandidates(inv.entries) && reclaimed == Gone(removed) && Fits(inv, removed)
    ensures StopsAt(policy, inv, world, |removed|)
    ensures var all := ReclaimableCandidates(inv.entries);
      ending == if |removed| == |all| || |removed| == policy.maxPruneItems || AppliedWithin(policy, inv, world, |removed|)
                then Done else Changed(all[|removed|].path)
  {
    var candidates := ReclaimableCandidates(inv.entries);
    var current := SnapshotOf(inv);
    removed, reclaimed := [], Usage(0, 0);
    var k := 0;
    ApplyStart(policy, inv, world);
    while k < |candidates| && !current.limits.withinLimits && k < policy.maxPruneItems
      invariant Applying(policy, inv, world, k, current, reclaimed)
      invariant removed == candidates[..k] && k <= policy.maxPruneItems
      invariant forall j :: 0 <= j < k ==> !AppliedWithin(policy, inv, world, j) && world.unlinks(j)
    {
      var c := candidates[k];
      if !world.unlinks(k) {
        return removed, reclaimed, Changed(c.path);
      }
      ApplyStep(policy, inv, world, k, current, reclaimed);
      var sum, next := CheckedAdd(reclaimed, Usage(c.bytes, 1)), Account(policy, current, c.bytes, world.free(k));
      if sum.ArithmeticOverflow? || next.ArithmeticOverflow? {
        return removed, reclaimed, Overflowed;
      }
      assert candidates[..k + 1] == candidates[..k] + [c];
      reclaimed, current, removed := sum.value, next.value, removed + [c];
      k := k + 1;
    }
    return removed, reclaimed, Done;
  }

  /** What is reported of the files that were removed. */
  function ReportOf(policy: Policy, inv: I.Inventory, projected: Snapshot, removed: seq<Entry>, after: I.Inventory): Report {
    Report(SnapshotOf(inv), projected, SnapshotOf(after), ItemsOf(removed), Gone(removed),
           FinalBlocker(policy, SnapshotOf(after), |removed|), after.limits.withinLimits)
  }

  /** The report shows the numbers from before, from the plan and from the new inventory, the
    * removed files one by one, and their number and size; no more than one prune may take. */
  lemma ReportTells(policy: Policy, inv: I.Inventory, world: World, projected: Snapshot, removed: seq<Entry>,
          after: I.Inventory)
    requires Sound(policy, inv) && removed <= ReclaimableCandidates(inv.entries) && StopsAt(policy, inv, world, |removed|)
    ensures
      var r := ReportOf(policy, inv, projected, removed, after);
      && r.before.usage == inv.usage && r.before.protected == inv.protected && r.before.reclaimable == inv.reclaimable
      && r.before.available == inv.available && r.before.limits == inv.limits && r.projected == projected
      && r.finalState.usage == after.usage && r.finalState.protected == after.protected
      && r.finalState.reclaimable == after.reclaimable && r.finalState.available == after.available
      && r.finalState.limits == after.limits && r.limitsMet == after.limits.withinLimits
      && r.finalState.scannedEntries == after.scannedEntries && r.finalState.unsafeEntries == after.unsafeEntries
    ensures
      var r := ReportOf(policy, inv, projected, removed, after);
      && |r.items| == |removed| == r.reclaimed.files <= policy.maxPruneItems
      && r.reclaimed.bytes == I.Sum(removed, I.AllBytes)
      && forall i :: 0 <= i < |removed| ==>
           && r.items[i].path == removed[i].path && r.items[i].bytes == removed[i].bytes
           && r.items[i].modified == removed[i].modified
  {
    CandidatesAre(inv.entries);
    assert forall e :: e in removed ==> e in ReclaimableCandidates(inv.entries);
    GoneIsSum(removed);
    FilesWeighAsReclaimable(removed);
  }

  lemma {:induction false} FilesWeighAsReclaimable(cs: seq<Entry>)
    requires forall e :: e in cs ==> IsCandidate(e)
    ensures I.Sum(cs, I.AllBytes) == I.Sum(cs, I.ReclaimableBytes)
  {
    if cs != [] {
      assert cs[0] in cs;
      FilesWeighAsReclaimable(cs[1..]);
    }
  }

  /** `prune` in apply mode; `after` is the inventory taken when the deletions are over,
    * `removed` the files that left the disk. */
  method Apply(policy: Policy, inv: I.Inventory, world: World, after: I.Inventory)
      returns (r: Outcome, removed: seq<Entry>)
    requires Sound(policy, inv)
    ensures var n, all := Needed(policy, inv), ReclaimableCandidates(inv.entries);
      var blocker := BlockerFor(policy, inv, n, WithinAfter(policy, inv, n));
      if blocker.Some? then
        r == Refused(PruneBlocked(blocker.value)) && removed == []
      else
        && removed <= all && Fits(inv, removed) && Fits(inv, all[..n])
        && StopsAt(policy, inv, world, |removed|)
        && r == if |removed| == |all| || |removed| == policy.maxPruneItems || AppliedWithin(policy, inv, world, |removed|)
                then Applied(ReportOf(policy, inv, After(policy, inv, all[..n]), removed, after))
                else Refused(EntryChanged(all[|removed|].path))
  {
    var planned := BuildPrunePlan(policy, inv);
    if planned.ArithmeticOverflow? {
      return Refused(ApplyError.Overflow), [];
    }
    if planned.value.blocker.Some? {
      return Refused(PruneBlocked(planned.value.blocker.value)), [];
    }
    var reclaimed: Usage, ending: Ending;
    removed, reclaimed, ending := DeleteCandidates(policy, inv, world);
    match ending {
      case Changed(path) => r := Refused(EntryChanged(path));
      case Overflowed => r := Refused(ApplyError.Overflow);
      case Done =>
        var finalState := SnapshotOf(after);
        r := Applied(Report(SnapshotOf(inv), planned.value.projected, finalState, ItemsOf(removed), reclaimed,
                            FinalBlocker(policy, finalState, |removed|), finalState.limits.withinLimits));
    }
  }

  /** The running snapshot of apply after `k` deletions. */
  predicate Applying(policy: Policy, inv: I.Inventory, world: World, k: nat, s: Snapshot, reclaimed: Usage) {
    var cs := ReclaimableCandidates(inv.entries);
    && k <= |cs| && Fits(inv, cs[..k]) && reclaimed == Gone(cs[..k])
    && s.usage == inv.usage.Minus(Gone(cs[..k])) && s.reclaimable == inv.reclaimable.Minus(Gone(cs[..k]))
    && (s.limits.withinLimits <==> AppliedWithin(policy, inv, world, k))
  }

  lemma ApplyStart(policy: Policy, inv: I.Inventory, world: World)
    requires Sound(policy, inv)
    ensures Applying(policy, inv, world, 0, SnapshotOf(inv), Usage(0, 0))
  {
    AfterNothing(policy, inv);
    assert ReclaimableCandidates(inv.entries)[..0] == [];
  }

  lemma ApplyStep(policy: Policy, inv: I.Inventory, world: World, k: nat, s: Snapshot, reclaimed: Usage)
    requires Sound(policy, inv) && Applying(policy, inv, world, k, s, reclaimed) && k < |ReclaimableCandidates(inv.entries)|
    ensures var c := ReclaimableCandidates(inv.entries)[k];
      var next, sum := Account(policy, s, c.bytes, world.free(k)), CheckedAdd(reclaimed, Usage(c.bytes, 1));
      next.Value? && sum.Value? && Applying(policy, inv, world, k + 1, next.value, sum.value)
  {
    GoneIsCovered(policy, inv, k + 1);
    GoneStep(ReclaimableCandidates(inv.entries), k);
  }

  /** Apply refines the dry run: when every unlink succeeds and frees exactly the
    * file's bytes, the files removed are the planned ones. */
  lemma ApplyRefinesDryRun(policy: Policy, inv: I.Inventory, world: World, plan: Plan, k: nat)
    requires Sound(policy, inv) && IsPlan(policy, inv, plan) && plan.blocker.None? && StopsAt(policy, inv, world, k)
    requires forall j :: 0 <= j < |plan.items| ==>
      world.unlinks(j) && world.free(j) == SaturatingAdd(inv.available, Gone(ReclaimableCandidates(inv.entries)[..j + 1]).bytes)
    ensures k == |plan.items|
  {
    var n := |plan.items|;
    UnblockedPlanIsShortest(policy, inv, plan);
    forall j | 0 <= j <= n ensures AppliedWithin(policy, inv, world, j) <==> WithinAfter(policy, inv, j) {
      assert ReclaimableCandidates(inv.entries)[..0] == [];
    }
  }

  // ----- The tree after apply -----

  /** The tree without the files in `gone`; `view` is what inspecting a directory finds then. */
  function Without(dir: Path, cs: seq<I.Child>, gone: set<Path>, view: Path -> LeaseView): seq<I.Child>
    decreases cs
  {
    if cs == [] then []
    else
      var path := dir + [cs[0].name];
      var rest := Without(dir, cs[1..], gone, view);
      match cs[0].node
      case Leaf(_, _, _, _) => if path in gone then rest else [cs[0]] + rest
      case Directory(_, children) => [I.Child(cs[0].name, I.Directory(view(path), Without(path, children, gone, view)))] + rest
  }

  function SumOutside(es: seq<Entry>, gone: set<Path>, c: I.Column): nat {
    if es == [] then 0 else (if es[0].path in gone then 0 else I.Cell(es[0], c)) + SumOutside(es[1..], gone, c)
  }

  lemma {:induction false} SumOutsideConcat(a: seq<Entry>, b: seq<Entry>, gone: set<Path>, c: I.Column)
    ensures SumOutside(a + b, gone, c) == SumOutside(a, gone, c) + SumOutside(b, gone, c)
  {
    if a == [] {
      assert a + b == b;
    } else {
      assert (a + b)[1..] == a[1..] + b;
      SumOutsideConcat(a[1..], b, gone, c);
    }
  }

  lemma {:induction false} SumOutsideNothing(es: seq<Entry>, c: I.Column)
    ensures SumOutside(es, {}, c) == I.Sum(es, c)
  {
    if es != [] {
      SumOutsideNothing(es[1..], c);
    }
  }

  lemma ConsSums(dir: Path, child: I.Child, rest: seq<I.Child>, r: DirectoryRetention, now: nat, c: I.Column)
    ensures I.Sum(I.Entries(dir, [child] + rest, r, now), c)
      == I.Sum(I.NodeEntries(dir + [child.name], child.node, r, now), c) + I.Sum(I.Entries(dir, rest, r, now), c)
  {
    assert ([child] + rest)[1..] == rest;
    I.SumConcat(I.NodeEntries(dir + [child.name], child.node, r, now), I.Entries(dir, rest, r, now), c);
  }

  lemma LeafSums(path: Path, n: I.Node, gone: set<Path>, r: DirectoryRetention, s: DirectoryRetention, now: nat,
          later: nat, c: I.Column)
    requires n.Leaf? && (c.AllBytes? || c.AllFiles?)
    ensures SumOutside(I.NodeEntries(path, n, r, now), gone, c)
      == if path in gone then 0 else I.Sum(I.NodeEntries(path, n, s, later), c)
  {
    assert [I.EntryOf(path, n, r, now)][1..] == [];
    I.SumSingle(I.EntryOf(path, n, s, later), c);
  }

  /** Usage does not depend on how files are classified, only on which are there. */
  lemma {:induction false} WithoutSums(dir: Path, cs: seq<I.Child>, gone: set<Path>, view: Path -> LeaseView,
                                       r: DirectoryRetention, s: DirectoryRetention, now: nat, later: nat, c: I.Column)
    requires c.AllBytes? || c.AllFiles?
    ensures I.Sum(I.Entries(dir, Without(dir, cs, gone, view), s, later), c) == SumOutside(I.Entries(dir, cs, r, now), gone, c)
    decreases cs
  {
    if cs != [] {
      var path := dir + [cs[0].name];
      var rest := Without(dir, cs[1..], gone, view);
      WithoutSums(dir, cs[1..], gone, view, r, s, now, later, c);
      SumOutsideConcat(I.NodeEntries(path, cs[0].node, r, now), I.Entries(dir, cs[1..], r, now), gone, c);
      if cs[0].node.Leaf? {
        LeafSums(path, cs[0].node, gone, r, s, now, later, c);
        ConsSums(dir, cs[0], rest, s, later, c);
      } else {
        var lease, children := cs[0].node.lease, cs[0].node.children;
        WithoutSums(path, children, gone, view, I.RetentionForDirectory(path, r, lease),
                    I.RetentionForDirectory(path, s, view(path)), now, later, c);
        ConsSums(dir, I.Child(cs[0].name, I.Directory(view(path), Without(path, children, gone, view))), rest, s, later, c);
      }
    }
  }

  lemma {:induction false} OneMoreGone(es: seq<Entry>, gone: set<Path>, e: Entry, c: I.Column)
    requires I.PathsDistinct(es) && e in es && e.path !in gone
    ensures SumOutside(es, gone + {e.path}, c) + I.Cell(e, c) == SumOutside(es, gone, c)
  {
    if es[0] == e {
      SamePathsOutside(es[1..], gone, e.path, c);
    } else {
      assert es[0].path != e.path by {
        assert es[Position(es, e)] == e;
      }
      OneMoreGone(es[1..], gone, e, c);
    }
  }

  lemma {:induction false} SamePathsOutside(es: seq<Entry>, gone: set<Path>, path: Path, c: I.Column)
    requires forall i :: 0 <= i < |es| ==> es[i].path != path
    ensures SumOutside(es, gone + {path}, c) == SumOutside(es, gone, c)
  {
    if es != [] {
      assert es[0].path != path;
      SamePathsOutside(es[1..], gone, path, c);
    }
  }

  function PathsOf(cs: seq<Entry>): set<Path> {
    if cs == [] then {} else PathsOf(cs[..|cs| - 1]) + {cs[|cs| - 1].path}
  }

  lemma {:induction false} PathsOfMembers(cs: seq<Entry>, p: Path)
    requires p in PathsOf(cs)
    ensures exists i :: 0 <= i < |cs| && cs[i].path == p
  {
    if p == cs[|cs| - 1].path {
    } else {
      PathsOfMembers(cs[..|cs| - 1], p);
      var i :| 0 <= i < |cs| - 1 && cs[..|cs| - 1][i].path == p;
      assert cs[i].path == p;
    }
  }

  /** Removing some of the entries takes exactly their sizes away. */
  lemma {:induction false} RemovalTakesItsSize(es: seq<Entry>, cs: seq<Entry>)
    requires I.PathsDistinct(es) && I.PathsDistinct(cs) && (forall e :: e in cs ==> e in es && e.kind.RegularFile?)
    ensures SumOutside(es, PathsOf(cs), I.AllBytes) + Gone(cs).bytes == I.Sum(es, I.AllBytes)
    ensures SumOutside(es, PathsOf(cs), I.AllFiles) + Gone(cs).files == I.Sum(es, I.AllFiles)
  {
    if cs == [] {
      SumOutsideNothing(es, I.AllBytes);
      SumOutsideNothing(es, I.AllFiles);
    } else {
      var init, last := cs[..|cs| - 1], cs[|cs| - 1];
      RemovalTakesItsSize(es, init);
      if last.path in PathsOf(init) {
        PathsOfMembers(init, last.path);
        assert false;
      }
      OneMoreGone(es, PathsOf(init), last, I.AllBytes);
      OneMoreGone(es, PathsOf(init), last, I.AllFiles);
    }
  }

  /** End to end: after an unblocked plan is applied in full, walking what is left of
    * the tree finds usage lower by exactly what was reclaimed, and limits that hold. */
  lemma ApplyingThePlanMeetsTheLimits(policy: Policy, inv: I.Inventory, plan: Plan, root: seq<I.Child>, now: nat,
                                      after: I.Inventory, view: Path -> LeaseView, later: nat)
    requires Sound(policy, inv) && IsPlan(policy, inv, plan) && plan.blocker.None?
    requires I.WellFormed(root) && I.Describes(inv, policy, root, now, inv.available)
    requires var removed := ReclaimableCandidates(inv.entries)[..Min(Needed(policy, inv), policy.maxPruneItems)];
      I.Describes(after, policy, Without([], root, PathsOf(removed), view), later, SaturatingAdd(inv.available, Gone(removed).bytes))
    ensures after.usage.Plus(plan.reclaimed) == inv.usage
    ensures after.limits.withinLimits
  {
    var removed := ReclaimableCandidates(inv.entries)[..Min(Needed(policy, inv), policy.maxPruneItems)];
    UnblockedPlanIsShortest(policy, inv, plan);
    RemovalFromTheTree(policy, inv, root, now, |removed|);
    WithoutSums([], root, PathsOf(removed), view, Protected, Protected, now, later, I.AllBytes);
    WithoutSums([], root, PathsOf(removed), view, Protected, Protected, now, later, I.AllFiles);
  }

  /** Taking the first candidates out of the tree takes their sizes out of its sums. */
  lemma RemovalFromTheTree(policy: Policy, inv: I.Inventory, root: seq<I.Child>, now: nat, n: nat)
    requires Sound(policy, inv) && I.WellFormed(root) && I.Describes(inv, policy, root, now, inv.available)
    requires n <= |ReclaimableCandidates(inv.entries)|
    ensures var all, removed := I.Entries([], root, Protected, now), ReclaimableCandidates(inv.entries)[..n];
      && SumOutside(all, PathsOf(removed), I.AllBytes) + Gone(removed).bytes == I.Sum(all, I.AllBytes)
      && SumOutside(all, PathsOf(removed), I.AllFiles) + Gone(removed).files == I.Sum(all, I.AllFiles)
  {
    var all := I.Entries([], root, Protected, now);
    var cs := ReclaimableCandidates(inv.entries);
    I.EntriesHaveDistinctPaths([], root, Protected, now);
    SameMultisetSameMembers(inv.entries, all);
    CandidatesHaveDistinctPaths(inv.entries);
    CandidatesAre(inv.entries);
    forall e | e in cs[..n] ensures e in all && e.kind.RegularFile? {
      assert e in cs;
    }
    RemovalTakesItsSize(all, cs[..n]);
  }
}
