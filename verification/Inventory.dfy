/** The inventory walk over the artifact tree.
  *
  * The walk pops directories off an explicit stack, counts every directory entry
  * it reads, classifies every entry that is not a directory, and keeps three
  * running usages.  It is compared with a recursive definition over the tree.
  */
module Inventory {
  import opened Orders
  import opened StorageUsage
  import opened Retention

  datatype Kind = RegularFile | Symlink | NonRegular

  /** `lease` is what inspecting the directory's lease marker and lock finds. */
  datatype Node =
    | Leaf(kind: Kind, bytes: nat, modified: nat, links: nat)
    | Directory(lease: LeaseView, children: seq<Child>)

  datatype Child = Child(name: string, node: Node)

  datatype Entry = Entry(path: Path, classification: Classification, kind: Kind, bytes: nat, modified: nat, links: nat)
  {
    predicate UnsafeForApply() { kind != RegularFile || links != 1 }

    function Size(): Usage { if kind == RegularFile then Usage(bytes, 1) else Usage(0, 0) }
  }

  datatype Inventory = Inventory(
    usage: Usage, protected: Usage, reclaimable: Usage, available: nat,
    scannedEntries: nat, unsafeEntries: nat, limits: LimitState, entries: seq<Entry>)

  datatype Failure = ScanLimitExceeded | ArithmeticOverflow

  datatype Result<+T> = Ok(value: T) | Err(failure: Failure)

  // ----- The tree -----

  /** A directory holds no name twice, at any depth. */
  predicate WellFormed(cs: seq<Child>)
    decreases cs, 1
  {
    && (forall i, j :: 0 <= i < j < |cs| ==> cs[i].name != cs[j].name)
    && forall i :: 0 <= i < |cs| ==> WellFormedNode(cs[i].node)
  }

  predicate WellFormedNode(n: Node)
    decreases n, 0
  {
    n.Directory? ==> WellFormed(n.children)
  }

  function Count(cs: seq<Child>): nat
    decreases cs
  {
    if cs == [] then 0 else 1 + CountNode(cs[0].node) + Count(cs[1..])
  }

  function CountNode(n: Node): nat
    decreases n
  {
    if n.Directory? then Count(n.children) else 0
  }

  /** `retention_for_directory`. */
  function RetentionForDirectory(path: Path, parent: DirectoryRetention, lease: LeaseView): DirectoryRetention {
    if path == [TRANSIENT_DIRECTORY] then Transient
    else if |path| == 2 && path[0] == TRANSIENT_DIRECTORY then InspectTransientLease(lease)
    else parent
  }

  function EntryOf(path: Path, n: Node, retention: DirectoryRetention, now: nat): Entry
    requires n.Leaf?
  {
    Entry(path, Classify(path, retention, n.modified, now), n.kind,
          if n.kind == RegularFile then n.bytes else 0, n.modified, n.links)
  }

  /** Every entry below a list of children, directories aside. */
  function Entries(dir: Path, cs: seq<Child>, retention: DirectoryRetention, now: nat): seq<Entry>
    decreases cs
  {
    if cs == [] then []
    else NodeEntries(dir + [cs[0].name], cs[0].node, retention, now) + Entries(dir, cs[1..], retention, now)
  }

  function NodeEntries(path: Path, n: Node, retention: DirectoryRetention, now: nat): seq<Entry>
    decreases n
  {
    match n
    case Leaf(_, _, _, _) => [EntryOf(path, n, retention, now)]
    case Directory(lease, children) => Entries(path, children, RetentionForDirectory(path, retention, lease), now)
  }

  // ----- Sums over entries -----

  /** The counters an inventory keeps. */
  datatype Column = AllBytes | AllFiles | KeptBytes | KeptFiles | ReclaimableBytes | ReclaimableFiles | UnsafeEntries

  function Cell(e: Entry, c: Column): nat {
    var file := e.kind == RegularFile;
    match c
    case AllBytes => if file then e.bytes else 0
    case AllFiles => if file then 1 else 0
    case KeptBytes => if file && e.classification.Kept? then e.bytes else 0
    case KeptFiles => if file && e.classification.Kept? then 1 else 0
    case ReclaimableBytes => if file && e.classification.Reclaimable? then e.bytes else 0
    case ReclaimableFiles => if file && e.classification.Reclaimable? then 1 else 0
    case UnsafeEntries => if e.UnsafeForApply() then 1 else 0
  }

  function Sum(es: seq<Entry>, c: Column): nat {
    if es == [] then 0 else Cell(es[0], c) + Sum(es[1..], c)
  }

  datatype Tally = Tally(all: Usage, kept: Usage, reclaimable: Usage, unsafeEntries: nat)

  function TallyAll(es: seq<Entry>): Tally {
    Tally(Usage(Sum(es, AllBytes), Sum(es, AllFiles)),
          Usage(Sum(es, KeptBytes), Sum(es, KeptFiles)),
          Usage(Sum(es, ReclaimableBytes), Sum(es, ReclaimableFiles)),
          Sum(es, UnsafeEntries))
  }

  lemma {:induction false} SumConcat(a: seq<Entry>, b: seq<Entry>, c: Column)
    ensures Sum(a + b, c) == Sum(a, c) + Sum(b, c)
  {
    if a == [] {
      assert a + b == b;
    } else {
      assert (a + b)[1..] == a[1..] + b;
      SumConcat(a[1..], b, c);
    }
  }

  lemma SumAround(x: seq<Entry>, e: Entry, y: seq<Entry>, c: Column)
    ensures Sum(x + [e] + y, c) == Cell(e, c) + Sum(x + y, c)
  {
    SumConcat(x + [e], y, c);
    SumConcat(x, [e], c);
    SumConcat(x, y, c);
    assert [e][1..] == [];
  }

  lemma {:induction false} SumPermutation(a: seq<Entry>, b: seq<Entry>, c: Column)
    requires multiset(a) == multiset(b)
    ensures Sum(a, c) == Sum(b, c)
    decreases |a|
  {
    SameMultisetSameMembers(a, b);
    if a == [] {
      assert b == [];
    } else {
      var e := a[0];
      var w, x := SplitAround(a, e);
      var y, z := SplitAround(b, e);
      SumPermutation(w + x, y + z, c);
      SumAround(w, e, x, c);
      SumAround(y, e, z, c);
    }
  }

  lemma TallyPermutation(a: seq<Entry>, b: seq<Entry>)
    requires multiset(a) == multiset(b)
    ensures TallyAll(a) == TallyAll(b)
  {
    forall c ensures Sum(a, c) == Sum(b, c) {
      SumPermutation(a, b, c);
    }
  }

  lemma SumSingle(e: Entry, c: Column)
    ensures Sum([e], c) == Cell(e, c)
  {
    assert [e][1..] == [];
  }

  lemma SumSnoc(es: seq<Entry>, e: Entry, c: Column)
    ensures Sum(es + [e], c) == Sum(es, c) + Cell(e, c)
  {
    SumConcat(es, [e], c);
    SumSingle(e, c);
  }

  /** Usage splits into what is protected and what is reclaimable. */
  lemma {:induction false} UsageSplits(es: seq<Entry>)
    ensures Sum(es, AllBytes) == Sum(es, KeptBytes) + Sum(es, ReclaimableBytes)
    ensures Sum(es, AllFiles) == Sum(es, KeptFiles) + Sum(es, ReclaimableFiles)
    ensures Sum(es, AllFiles) <= |es| && Sum(es, UnsafeEntries) <= |es|
  {
    if es != [] {
      UsageSplits(es[1..]);
    }
  }

  // ----- The order of a directory listing does not matter -----

  lemma {:induction false} EntriesConcat(dir: Path, a: seq<Child>, b: seq<Child>, retention: DirectoryRetention, now: nat)
    ensures Entries(dir, a + b, retention, now) == Entries(dir, a, retention, now) + Entries(dir, b, retention, now)
    ensures Count(a + b) == Count(a) + Count(b)
  {
    if a == [] {
      assert a + b == b;
    } else {
      assert (a + b)[1..] == a[1..] + b;
      EntriesConcat(dir, a[1..], b, retention, now);
    }
  }

  lemma EntriesSingle(dir: Path, e: Child, retention: DirectoryRetention, now: nat)
    ensures Entries(dir, [e], retention, now) == NodeEntries(dir + [e.name], e.node, retention, now)
    ensures Count([e]) == 1 + CountNode(e.node)
  {
    assert [e][1..] == [];
  }

  lemma EntriesAround(dir: Path, x: seq<Child>, e: Child, y: seq<Child>, retention: DirectoryRetention, now: nat)
    ensures multiset(Entries(dir, x + [e] + y, retention, now))
      == multiset(NodeEntries(dir + [e.name], e.node, retention, now)) + multiset(Entries(dir, x + y, retention, now))
    ensures Count(x + [e] + y) == 1 + CountNode(e.node) + Count(x + y)
  {
    EntriesConcat(dir, x + [e], y, retention, now);
    EntriesConcat(dir, x, [e], retention, now);
    EntriesConcat(dir, x, y, retention, now);
    EntriesSingle(dir, e, retention, now);
    MoveToFront(Entries(dir, x, retention, now), Entries(dir, [e], retention, now), Entries(dir, y, retention, now));
  }

  lemma {:induction false} EntriesPermutation(dir: Path, a: seq<Child>, b: seq<Child>,
          retention: DirectoryRetention, now: nat)
    requires multiset(a) == multiset(b)
    ensures multiset(Entries(dir, a, retention, now)) == multiset(Entries(dir, b, retention, now))
    ensures Count(a) == Count(b)
    decreases |a|
  {
    SameMultisetSameMembers(a, b);
    if a == [] {
      assert b == [];
    } else {
      var e := a[0];
      var w, x := SplitAround(a, e);
      var y, z := SplitAround(b, e);
      EntriesPermutation(dir, w + x, y + z, retention, now);
      EntriesAround(dir, w, e, x, retention, now);
      EntriesAround(dir, y, e, z, retention, now);
    }
  }

  // ----- The stack -----

  datatype Pending = Pending(dir: Path, children: seq<Child>, retention: DirectoryRetention)

  /** What the directories on the stack still have to contribute. */
  function Rest(stack: seq<Pending>, now: nat): seq<Entry> {
    if stack == [] then []
    else
      var top := stack[|stack| - 1];
      Rest(stack[..|stack| - 1], now) + Entries(top.dir, top.children, top.retention, now)
  }

  function RestCount(stack: seq<Pending>): nat {
    if stack == [] then 0 else RestCount(stack[..|stack| - 1]) + Count(stack[|stack| - 1].children)
  }

  lemma RestPush(stack: seq<Pending>, p: Pending, now: nat)
    ensures Rest(stack + [p], now) == Rest(stack, now) + Entries(p.dir, p.children, p.retention, now)
    ensures RestCount(stack + [p]) == RestCount(stack) + Count(p.children)
  {
    assert (stack + [p])[..|stack|] == stack;
  }

  lemma {:induction false} RestConcat(a: seq<Pending>, b: seq<Pending>, now: nat)
    ensures Rest(a + b, now) == Rest(a, now) + Rest(b, now)
    ensures RestCount(a + b) == RestCount(a) + RestCount(b)
  {
    if b == [] {
      assert a + b == a;
    } else {
      var init, last := b[..|b| - 1], b[|b| - 1];
      RestConcat(a, init, now);
      assert b == init + [last] && a + b == (a + init) + [last];
      RestPush(a + init, last, now);
      RestPush(init, last, now);
      Associate(Rest(a, now), Rest(init, now), Entries(last.dir, last.children, last.retention, now));
    }
  }

  lemma Associate<T>(a: seq<T>, b: seq<T>, c: seq<T>)
    ensures (a + b) + c == a + (b + c)
  {
  }

  lemma RestAround(x: seq<Pending>, e: Pending, y: seq<Pending>, now: nat)
    ensures multiset(Rest(x + [e] + y, now))
      == multiset(Entries(e.dir, e.children, e.retention, now)) + multiset(Rest(x + y, now))
    ensures RestCount(x + [e] + y) == Count(e.children) + RestCount(x + y)
  {
    RestConcat(x + [e], y, now);
    RestConcat(x, [e], now);
    RestConcat(x, y, now);
    RestSingle(e, now);
    MoveToFront(Rest(x, now), Rest([e], now), Rest(y, now));
  }

  lemma {:induction false} RestPermutation(a: seq<Pending>, b: seq<Pending>, now: nat)
    requires multiset(a) == multiset(b)
    ensures multiset(Rest(a, now)) == multiset(Rest(b, now))
    ensures RestCount(a) == RestCount(b)
    decreases |a|
  {
    SameMultisetSameMembers(a, b);
    if a == [] {
      assert b == [];
    } else {
      var e := a[0];
      var w, x := SplitAround(a, e);
      var y, z := SplitAround(b, e);
      RestPermutation(w + x, y + z, now);
      RestAround(w, e, x, now);
      RestAround(y, e, z, now);
    }
  }

  function ChildOrder(): (Child, Child) -> bool {
    (a: Child, b: Child) => StringOrder()(a.name, b.name)
  }

  function PendingOrder(): (Pending, Pending) -> bool {
    (a: Pending, b: Pending) => PathOrder()(a.dir, b.dir)
  }

  function EntryOrder(): (Entry, Entry) -> bool {
    (a: Entry, b: Entry) => PathOrder()(a.path, b.path)
  }

  lemma EntryOrderIsTotal()
    ensures TotalPreorder(EntryOrder())
  {
    PathOrderIsTotal();
    var le := PathOrder();
    forall a, b ensures EntryOrder()(a, b) || EntryOrder()(b, a) {
      assert le(a.path, b.path) || le(b.path, a.path);
    }
    forall a, b, c | EntryOrder()(a, b) && EntryOrder()(b, c) ensures EntryOrder()(a, c) {
      assert le(a.path, b.path) && le(b.path, c.path);
    }
  }

  /** The inventory says about the tree exactly what the recursive definition says. */
  predicate Describes(inv: Inventory, policy: Policy, root: seq<Child>, now: nat, available: nat) {
    var all := Entries([], root, Protected, now);
    && multiset(inv.entries) == multiset(all)
    && Sorted(EntryOrder(), inv.entries)
    && inv.scannedEntries == Count(root)
    && inv.usage == TallyAll(all).all
    && inv.protected == TallyAll(all).kept
    && inv.reclaimable == TallyAll(all).reclaimable
    && inv.unsafeEntries == TallyAll(all).unsafeEntries
    && inv.available == available
    && inv.limits == Evaluate(policy, inv.usage, available)
  }

  /** The running counters of the walk. */
  datatype Progress = Progress(entries: seq<Entry>, tally: Tally)
  {
    predicate Consistent() { tally == TallyAll(entries) && tally.all.bytes <= U64_MAX && |entries| <= U64_MAX }
  }

  lemma RestSingle(p: Pending, now: nat)
    ensures Rest([p], now) == Entries(p.dir, p.children, p.retention, now)
    ensures RestCount([p]) == Count(p.children)
  {
    assert [p][..0] == [];
    assert Rest([], now) == [];
  }

  lemma {:induction false} CountAtLeastLength(cs: seq<Child>)
    ensures Count(cs) >= |cs|
  {
    if cs != [] {
      CountAtLeastLength(cs[1..]);
    }
  }

  /** Counts one entry into the running usages, unless they would overflow. */
  method CountEntry(progress: Progress, entry: Entry) returns (r: Result<Progress>)
    requires progress.Consistent() && |progress.entries| < U64_MAX
    ensures r.Ok? <==> progress.tally.all.bytes + entry.Size().bytes <= U64_MAX
    ensures r.Ok? ==> r.value.Consistent() && r.value.entries == progress.entries + [entry]
    ensures r.Err? ==> r == Err(Failure.ArithmeticOverflow)
  {
    UsageSplits(progress.entries);
    forall c ensures Sum(progress.entries + [entry], c) == Sum(progress.entries, c) + Cell(entry, c) {
      SumSnoc(progress.entries, entry, c);
    }
    var t := progress.tally;
    if entry.UnsafeForApply() {
      t := t.(unsafeEntries := t.unsafeEntries + 1);
    }
    if entry.kind == RegularFile {
      var all := CheckedAdd(t.all, entry.Size());
      if all.ArithmeticOverflow? {
        return Err(Failure.ArithmeticOverflow);
      }
      t := t.(all := all.value);
      match entry.classification {
        case Reclaimable => t := t.(reclaimable := CheckedAdd(t.reclaimable, entry.Size()).value);
        case Kept => t := t.(kept := CheckedAdd(t.kept, entry.Size()).value);
      }
    }
    return Ok(Progress(progress.entries + [entry], t));
  }

  lemma ListingStep(dir: Path, children: seq<Child>, i: nat, retention: DirectoryRetention, now: nat)
    requires i < |children|
    ensures Entries(dir, children[i..], retention, now)
      == NodeEntries(dir + [children[i].name], children[i].node, retention, now) + Entries(dir, children[i + 1..], retention, now)
    ensures Count(children[i..]) == 1 + CountNode(children[i].node) + Count(children[i + 1..])
  {
    assert children[i..][1..] == children[i + 1..];
  }

  ghost function SeqOf<T>(m: multiset<T>): (s: seq<T>)
    ensures multiset(s) == m
    decreases |m|
  {
    if m == multiset{} then [] else var x :| x in m; [x] + SeqOf(m - multiset{x})
  }

  /** What is listed already can only be part of the whole. */
  lemma PartOfTotal(part: seq<Entry>, left: multiset<Entry>, all: seq<Entry>)
    requires multiset(part) + left == multiset(all)
    ensures TallyAll(part).all.AtMost(TallyAll(all).all)
  {
    TallyPermutation(part + SeqOf(left), all);
    SumConcat(part, SeqOf(left), AllBytes);
    SumConcat(part, SeqOf(left), AllFiles);
  }

  /** What is listed, returned for the stack, and still ahead is the whole directory. */
  ghost predicate Listing(before: Progress, progress: Progress, directories: seq<Pending>, top: Pending,
                          children: seq<Child>, i: nat, now: nat)
    requires i <= |children|
  {
    && progress.Consistent()
    && multiset(progress.entries) + multiset(Rest(directories, now)) + multiset(Entries(top.dir, children[i..], top.retention, now))
      == multiset(before.entries) + multiset(Entries(top.dir, children, top.retention, now))
    && RestCount(directories) + i + Count(children[i..]) == Count(children)
    && |directories| <= i && |progress.entries| <= |before.entries| + i
  }

  lemma ListingStarts(before: Progress, top: Pending, children: seq<Child>, now: nat)
    requires before.Consistent()
    ensures Listing(before, before, [], top, children, 0, now)
  {
    assert children[0..] == children;
  }

  lemma ListingEnds(before: Progress, progress: Progress, directories: seq<Pending>, top: Pending,
                    children: seq<Child>, now: nat)
    requires Listing(before, progress, directories, top, children, |children|, now)
    ensures multiset(progress.entries) + multiset(Rest(directories, now))
      == multiset(before.entries) + multiset(Entries(top.dir, children, top.retention, now))
    ensures RestCount(directories) + |children| == Count(children)
  {
    assert children[|children|..] == [];
  }

  lemma PassDirectory(before: Progress, progress: Progress, directories: seq<Pending>, top: Pending,
                      children: seq<Child>, i: nat, now: nat)
    requires i < |children| && children[i].node.Directory? && Listing(before, progress, directories, top, children, i, now)
    ensures Listing(before, progress, directories + [PendingAt(top, children[i])], top, children, i + 1, now)
  {
    var next := PendingAt(top, children[i]);
    ListingStep(top.dir, children, i, top.retention, now);
    RestConcat(directories, [next], now);
    RestSingle(next, now);
  }

  lemma PassFile(before: Progress, progress: Progress, directories: seq<Pending>, top: Pending,
                 children: seq<Child>, i: nat, now: nat, after: Progress)
    requires i < |children| && children[i].node.Leaf? && Listing(before, progress, directories, top, children, i, now)
    requires after.Consistent()
    requires after.entries == progress.entries + [EntryOf(top.dir + [children[i].name], children[i].node, top.retention, now)]
    ensures Listing(before, after, directories, top, children, i + 1, now)
  {
    ListingStep(top.dir, children, i, top.retention, now);
  }

  lemma OverflowIsReal(before: Progress, progress: Progress, directories: seq<Pending>, top: Pending,
                       children: seq<Child>, i: nat, now: nat)
    requires i < |children| && children[i].node.Leaf? && before.Consistent()
    requires Listing(before, progress, directories, top, children, i, now)
    requires var entry := EntryOf(top.dir + [children[i].name], children[i].node, top.retention, now);
      progress.tally.all.bytes + entry.Size().bytes > U64_MAX
    ensures before.tally.all.bytes + TallyAll(Entries(top.dir, children, top.retention, now)).all.bytes > U64_MAX
  {
    var entry := EntryOf(top.dir + [children[i].name], children[i].node, top.retention, now);
    var whole := before.entries + Entries(top.dir, children, top.retention, now);
    SumConcat(before.entries, Entries(top.dir, children, top.retention, now), AllBytes);
    ListingStep(top.dir, children, i, top.retention, now);
    var left := multiset(Rest(directories, now)) + multiset(Entries(top.dir, children[i + 1..], top.retention, now));
    assert multiset(progress.entries + [entry]) + left == multiset(whole);
    PartOfTotal(progress.entries + [entry], left, whole);
    SumSnoc(progress.entries, entry, AllBytes);
  }

  function PendingAt(top: Pending, child: Child): Pending
    requires child.node.Directory?
  {
    var path := top.dir + [child.name];
    Pending(path, child.node.children, RetentionForDirectory(path, top.retention, child.node.lease))
  }

  /** One directory: its files are listed, its directories are returned for the stack. */
  method ListDirectory(top: Pending, children: seq<Child>, before: Progress, now: nat)
      returns (r: Result<Progress>, directories: seq<Pending>)
    requires before.Consistent() && |before.entries| + |children| <= U64_MAX
    ensures r.Ok? ==>
      && r.value.Consistent()
      && multiset(r.value.entries) + multiset(Rest(directories, now))
         == multiset(before.entries) + multiset(Entries(top.dir, children, top.retention, now))
      && RestCount(directories) + |children| == Count(children)
      && |directories| <= |children|
      && |r.value.entries| <= |before.entries| + |children|
    ensures r.Err? ==>
      && r == Err(Failure.ArithmeticOverflow)
      && before.tally.all.bytes + TallyAll(Entries(top.dir, children, top.retention, now)).all.bytes > U64_MAX
  {
    directories := [];
    var progress := before;
    ListingStarts(before, top, children, now);
    for i := 0 to |children|
      invariant Listing(before, progress, directories, top, children, i, now)
    {
      var child := children[i];
      if child.node.Directory? {
        PassDirectory(before, progress, directories, top, children, i, now);
        directories := directories + [PendingAt(top, child)];
      } else {
        var entry := EntryOf(top.dir + [child.name], child.node, top.retention, now);
        var counted := CountEntry(progress, entry);
        if counted.Err? {
          OverflowIsReal(before, progress, directories, top, children, i, now);
          return counted, directories;
        }
        PassFile(before, progress, directories, top, children, i, now, counted.value);
        progress := counted.value;
      }
    }
    ListingEnds(before, progress, directories, top, children, now);
    r := Ok(progress);
  }

  /** Reading a directory counts its entries against the limit, then sorts them. */
  method ReadDirectory(policy: Policy, top: Pending, scannedBefore: nat) returns (r: Result<seq<Child>>, scanned: nat)
    requires scannedBefore <= policy.maxScanEntries
    ensures r.Ok? <==> scannedBefore + |top.children| <= policy.maxScanEntries
    ensures r.Ok? ==> scanned == scannedBefore + |top.children| && multiset(r.value) == multiset(top.children) && |r.value| == |top.children|
    ensures r.Err? ==> r == Err(ScanLimitExceeded)
  {
    scanned := scannedBefore;
    var children := [];
    for i := 0 to |top.children|
      invariant children == top.children[..i]
      invariant scanned == scannedBefore + i <= policy.maxScanEntries
    {
      scanned := scanned + 1;
      if scanned > policy.maxScanEntries {
        return Err(ScanLimitExceeded), scanned;
      }
      children := children + [top.children[i]];
    }
    assert children == top.children;
    SortPermutes(ChildOrder(), children);
    r := Ok(Sort(ChildOrder(), children));
  }

  /** Between two directories: what is listed and what the stack holds make up the tree. */
  predicate WalkInv(policy: Policy, root: seq<Child>, now: nat, progress: Progress, pending: seq<Pending>, scanned: nat) {
    && progress.Consistent()
    && multiset(progress.entries) + multiset(Rest(pending, now)) == multiset(Entries([], root, Protected, now))
    && scanned + RestCount(pending) == Count(root)
    && |progress.entries| <= scanned <= policy.maxScanEntries
  }

  lemma WalkStarts(policy: Policy, root: seq<Child>, now: nat)
    ensures WalkInv(policy, root, now, Progress([], TallyAll([])), [Pending([], root, Protected)], 0)
  {
    RestSingle(Pending([], root, Protected), now);
  }

  lemma PopKeepsRest(pending: seq<Pending>, now: nat)
    requires pending != []
    ensures var top, below := pending[|pending| - 1], pending[..|pending| - 1];
      && Rest(pending, now) == Rest(below, now) + Entries(top.dir, top.children, top.retention, now)
      && RestCount(pending) == RestCount(below) + Count(top.children)
      && Count(top.children) >= |top.children|
  {
    CountAtLeastLength(pending[|pending| - 1].children);
  }

  lemma MoveAcross(before: multiset<Entry>, after: multiset<Entry>, below: multiset<Entry>,
                   directory: multiset<Entry>, pushed: multiset<Entry>)
    requires after + pushed == before + directory
    ensures after + (below + pushed) == before + (below + directory)
  {
    assert after + (below + pushed) == (after + pushed) + below;
    assert before + (below + directory) == (before + directory) + below;
  }

  method InventoryArtifactsOnce(policy: Policy, root: seq<Child>, now: nat, available: nat) returns (r: Result<Inventory>)
    requires policy.Validate()
    ensures r.Ok? <==>
      Count(root) <= policy.maxScanEntries && TallyAll(Entries([], root, Protected, now)).all.bytes <= U64_MAX
    ensures r == Err(ScanLimitExceeded) ==> Count(root) > policy.maxScanEntries
    ensures r == Err(Failure.ArithmeticOverflow) ==> TallyAll(Entries([], root, Protected, now)).all.bytes > U64_MAX
    ensures r.Ok? ==> Describes(r.value, policy, root, now, available)
  {
    var progress := Progress([], TallyAll([]));
    var scanned: nat := 0;
    var pending := [Pending([], root, Protected)];
    WalkStarts(policy, root, now);
    while pending != []
      invariant WalkInv(policy, root, now, progress, pending, scanned)
      decreases RestCount(pending) + |pending|
    {
      PopKeepsRest(pending, now);
      var top := pending[|pending| - 1];
      var below := pending[..|pending| - 1];
      var read, count := ReadDirectory(policy, top, scanned);
      if read.Err? {
        return Err(read.failure);
      }
      EntriesPermutation(top.dir, read.value, top.children, top.retention, now);
      var listed, directories := ListDirectory(top, read.value, progress, now);
      if listed.Err? {
        DirectoryIsPartOfTotal(progress, top, read.value, Rest(below, now), Entries([], root, Protected, now), now);
        return Err(listed.failure);
      }
      PushKeepsRest(below, directories, now);
      MoveAcross(multiset(progress.entries), multiset(listed.value.entries), multiset(Rest(below, now)),
                 multiset(Entries(top.dir, read.value, top.retention, now)), multiset(Rest(directories, now)));
      progress, scanned := listed.value, count;
      pending := below + Reverse(Sort(PendingOrder(), directories));
    }
    var t := progress.tally;
    r := Ok(Inventory(t.all, t.kept, t.reclaimable, available, scanned, t.unsafeEntries,
                      Evaluate(policy, t.all, available), Sort(EntryOrder(), progress.entries)));
    FinishedDescribes(r.value, progress, policy, root, now, available);
  }

  lemma PushKeepsRest(pending: seq<Pending>, directories: seq<Pending>, now: nat)
    ensures var pushed := pending + Reverse(Sort(PendingOrder(), directories));
      && multiset(Rest(pushed, now)) == multiset(Rest(pending, now)) + multiset(Rest(directories, now))
      && RestCount(pushed) == RestCount(pending) + RestCount(directories)
      && |pushed| == |pending| + |directories|
  {
    var sorted := Sort(PendingOrder(), directories);
    SortPermutes(PendingOrder(), directories);
    RestPermutation(Reverse(sorted), directories, now);
    RestConcat(pending, Reverse(sorted), now);
  }

  lemma FinishedDescribes(inv: Inventory, progress: Progress, policy: Policy, root: seq<Child>, now: nat, available: nat)
    requires progress.Consistent() && multiset(progress.entries) == multiset(Entries([], root, Protected, now))
    requires inv == Inventory(progress.tally.all, progress.tally.kept, progress.tally.reclaimable, available, Count(root),
                              progress.tally.unsafeEntries, Evaluate(policy, progress.tally.all, available),
                              Sort(EntryOrder(), progress.entries))
    ensures Describes(inv, policy, root, now, available)
  {
    SortPermutes(EntryOrder(), progress.entries);
    EntryOrderIsTotal();
    SortSorts(EntryOrder(), progress.entries);
    TallyPermutation(progress.entries, Entries([], root, Protected, now));
  }

  lemma DirectoryIsPartOfTotal(progress: Progress, top: Pending, children: seq<Child>, rest: seq<Entry>,
          all: seq<Entry>, now: nat)
    requires progress.Consistent()
    requires multiset(progress.entries) + multiset(Entries(top.dir, children, top.retention, now)) + multiset(rest) == multiset(all)
    ensures progress.tally.all.bytes + TallyAll(Entries(top.dir, children, top.retention, now)).all.bytes
      <= TallyAll(all).all.bytes
  {
    var part := progress.entries + Entries(top.dir, children, top.retention, now);
    SumConcat(progress.entries, Entries(top.dir, children, top.retention, now), AllBytes);
    PartOfTotal(part, multiset(rest), all);
  }

  // ----- Every file is listed once -----

  lemma {:induction false} EntriesAreBelow(dir: Path, cs: seq<Child>, retention: DirectoryRetention, now: nat, e: Entry)
    requires e in Entries(dir, cs, retention, now)
    ensures dir < e.path && exists k :: 0 <= k < |cs| && e.path[|dir|] == cs[k].name
    decreases cs
  {
    if e in NodeEntries(dir + [cs[0].name], cs[0].node, retention, now) {
      NodeEntriesAreBelow(dir + [cs[0].name], cs[0].node, retention, now, e);
      assert e.path[|dir|] == (dir + [cs[0].name])[|dir|] == cs[0].name;
    } else {
      EntriesAreBelow(dir, cs[1..], retention, now, e);
      var k :| 0 <= k < |cs[1..]| && e.path[|dir|] == cs[1..][k].name;
      assert cs[1..][k] == cs[k + 1];
    }
  }

  lemma {:induction false} NodeEntriesAreBelow(path: Path, n: Node, retention: DirectoryRetention, now: nat, e: Entry)
    requires e in NodeEntries(path, n, retention, now)
    ensures path <= e.path
    decreases n
  {
    if n.Directory? {
      EntriesAreBelow(path, n.children, RetentionForDirectory(path, retention, n.lease), now, e);
    }
  }

  predicate PathsDistinct(es: seq<Entry>) {
    forall i, j :: 0 <= i < j < |es| ==> es[i].path != es[j].path
  }

  lemma {:induction false} EntriesHaveDistinctPaths(dir: Path, cs: seq<Child>, retention: DirectoryRetention, now: nat)
    requires WellFormed(cs)
    ensures PathsDistinct(Entries(dir, cs, retention, now))
    decreases cs
  {
    if cs != [] {
      var name := cs[0].name;
      var first := NodeEntries(dir + [name], cs[0].node, retention, now);
      var later := Entries(dir, cs[1..], retention, now);
      assert WellFormedNode(cs[0].node) && WellFormed(cs[1..]);
      EntriesHaveDistinctPaths(dir, cs[1..], retention, now);
      if cs[0].node.Directory? {
        EntriesHaveDistinctPaths(dir + [name], cs[0].node.children, RetentionForDirectory(dir + [name], retention, cs[0].node.lease), now);
      }
      forall i, j | 0 <= i < |first| && 0 <= j < |later| ensures first[i].path != later[j].path {
        NodeEntriesAreBelow(dir + [name], cs[0].node, retention, now, first[i]);
        EntriesAreBelow(dir, cs[1..], retention, now, later[j]);
        assert first[i].path[|dir|] == (dir + [name])[|dir|];
      }
    }
  }

  // ----- A file's fate depends on its own directory below transient/ -----

  /** The first child of that name, if there is one. */
  function Find(cs: seq<Child>, name: string): seq<Node> {
    if cs == [] then [] else if cs[0].name == name then [cs[0].node] else Find(cs[1..], name)
  }

  /** The lease of the directory `transient/<name>`. */
  function LeaseOf(root: seq<Child>, name: string): LeaseView {
    var transient := Find(root, TRANSIENT_DIRECTORY);
    if transient == [] || transient[0].Leaf? then NoMarker
    else
      var inner := Find(transient[0].children, name);
      if inner == [] || inner[0].Leaf? then NoMarker else inner[0].lease
  }

  /** The retention that governs a path, read off the tree without walking it. */
  function GoverningRetention(root: seq<Child>, path: Path): DirectoryRetention {
    if |path| < 2 || path[0] != TRANSIENT_DIRECTORY then Protected
    else if |path| == 2 then Transient
    else InspectTransientLease(LeaseOf(root, path[1]))
  }

  predicate ClassifiedBy(es: seq<Entry>, retention: DirectoryRetention, now: nat) {
    forall e :: e in es ==> e.classification == Classify(e.path, retention, e.modified, now)
  }

  lemma {:induction false} RetentionIsInherited(dir: Path, cs: seq<Child>, retention: DirectoryRetention, now: nat)
    requires |dir| >= 2 || (|dir| == 1 && dir[0] != TRANSIENT_DIRECTORY && retention.Protected?)
    ensures ClassifiedBy(Entries(dir, cs, retention, now), retention, now)
    decreases cs
  {
    if cs != [] {
      var path := dir + [cs[0].name];
      RetentionIsInherited(dir, cs[1..], retention, now);
      if cs[0].node.Directory? {
        assert RetentionForDirectory(path, retention, cs[0].node.lease) == retention;
        RetentionIsInherited(path, cs[0].node.children, retention, now);
      }
    }
  }

  lemma {:induction false} TransientClassification(cs: seq<Child>, now: nat, e: Entry)
    requires WellFormed(cs) && e in Entries([TRANSIENT_DIRECTORY], cs, Transient, now)
    ensures |e.path| >= 2 && e.path[0] == TRANSIENT_DIRECTORY
    ensures |e.path| == 2 ==> e.classification == Classify(e.path, Transient, e.modified, now)
    ensures |e.path| > 2 ==> Find(cs, e.path[1]) != [] && Find(cs, e.path[1])[0].Directory?
    ensures |e.path| > 2 ==>
      e.classification == Classify(e.path, InspectTransientLease(Find(cs, e.path[1])[0].lease), e.modified, now)
  {
    var path := [TRANSIENT_DIRECTORY] + [cs[0].name];
    assert WellFormed(cs[1..]);
    if e in NodeEntries(path, cs[0].node, Transient, now) {
      NodeEntriesAreBelow(path, cs[0].node, Transient, now, e);
      assert e.path[0] == path[0] && e.path[1] == path[1];
      if cs[0].node.Directory? {
        var inner := InspectTransientLease(cs[0].node.lease);
        assert RetentionForDirectory(path, Transient, cs[0].node.lease) == inner;
        EntriesAreBelow(path, cs[0].node.children, inner, now, e);
        RetentionIsInherited(path, cs[0].node.children, inner, now);
      }
    } else {
      TransientClassification(cs[1..], now, e);
      EntriesAreBelow([TRANSIENT_DIRECTORY], cs[1..], Transient, now, e);
      var k :| 0 <= k < |cs[1..]| && e.path[1] == cs[1..][k].name;
      assert cs[1..][k] == cs[k + 1];
    }
  }

  /** The retention handed down the stack is the one the tree itself shows. */
  lemma {:induction false} ClassificationIsLocal(root: seq<Child>, now: nat, e: Entry)
    requires WellFormed(root) && e in Entries([], root, Protected, now)
    ensures e.classification == Classify(e.path, GoverningRetention(root, e.path), e.modified, now)
  {
    var path := [] + [root[0].name];
    assert path == [root[0].name];
    assert WellFormed(root[1..]) && WellFormedNode(root[0].node);
    if e in NodeEntries(path, root[0].node, Protected, now) {
      NodeEntriesAreBelow(path, root[0].node, Protected, now, e);
      assert e.path[0] == path[0];
      if root[0].node.Directory? {
        if root[0].name == TRANSIENT_DIRECTORY {
          TransientClassification(root[0].node.children, now, e);
        } else {
          RetentionIsInherited(path, root[0].node.children, Protected, now);
        }
      }
    } else {
      ClassificationIsLocal(root[1..], now, e);
      EntriesAreBelow([], root[1..], Protected, now, e);
      var k :| 0 <= k < |root[1..]| && e.path[0] == root[1..][k].name;
      assert root[1..][k] == root[k + 1];
      assert e.path[0] != root[0].name;
    }
  }

  /** What the walk reports: usage is protected plus reclaimable, no path occurs
    * twice, and exactly the files that their own transient directory gives up are
    * reclaimable. */
  lemma InventoryIsExact(inv: Inventory, policy: Policy, root: seq<Child>, now: nat, available: nat)
    requires WellFormed(root) && Describes(inv, policy, root, now, available)
    ensures inv.usage == inv.protected.Plus(inv.reclaimable)
    ensures PathsDistinct(inv.entries)
    ensures forall e :: e in inv.entries ==>
      e.classification == Classify(e.path, GoverningRetention(root, e.path), e.modified, now)
  {
    var all := Entries([], root, Protected, now);
    UsageSplits(all);
    EntriesHaveDistinctPaths([], root, Protected, now);
    SameMultisetSameMembers(inv.entries, all);
    forall e | e in inv.entries
      ensures e.classification == Classify(e.path, GoverningRetention(root, e.path), e.modified, now)
    {
      ClassificationIsLocal(root, now, e);
    }
    DistinctPathsPermutation(all, inv.entries);
  }

  lemma DistinctPathsPermutation(a: seq<Entry>, b: seq<Entry>)
    requires multiset(a) == multiset(b) && PathsDistinct(a)
    ensures PathsDistinct(b)
  {
    DistinctPermutation(a, b);
    SameMultisetSameMembers(a, b);
    forall i, j | 0 <= i < j < |b| ensures b[i].path != b[j].path {
      assert b[i] in a && b[j] in a && b[i] != b[j];
    }
  }

  // ----- What is listed, said of the tree alone -----

  /** What the tree has at a path. */
  function NodeAt(cs: seq<Child>, path: Path): seq<Node>
    decreases |path|
  {
    if path == [] then []
    else
      var here := Find(cs, path[0]);
      if here == [] || |path| == 1 then here
      else if here[0].Directory? then NodeAt(here[0].children, path[1..])
      else []
  }

  /** The entry reports the leaf: its kind, time and links, and a regular file's bytes. */
  predicate Reports(e: Entry, n: Node) {
    && n.Leaf? && e.kind == n.kind && e.modified == n.modified && e.links == n.links
    && (n.kind == RegularFile ==> e.bytes == n.bytes)
  }

  lemma {:induction false} FindAt(cs: seq<Child>, i: nat)
    requires WellFormed(cs) && i < |cs|
    ensures Find(cs, cs[i].name) == [cs[i].node]
  {
    if i > 0 {
      assert WellFormed(cs[1..]);
      FindAt(cs[1..], i - 1);
    }
  }

  lemma {:induction false} FoundIs(cs: seq<Child>, name: string) returns (i: nat)
    requires Find(cs, name) != []
    ensures i < |cs| && cs[i].name == name && Find(cs, name) == [cs[i].node]
  {
    if cs[0].name == name {
      i := 0;
    } else {
      var k := FoundIs(cs[1..], name);
      i := k + 1;
    }
  }

  lemma {:induction false} UnderChild(dir: Path, cs: seq<Child>, retention: DirectoryRetention, now: nat, e: Entry)
    returns (i: nat)
    requires e in Entries(dir, cs, retention, now)
    ensures i < |cs| && e in NodeEntries(dir + [cs[i].name], cs[i].node, retention, now)
  {
    if e in NodeEntries(dir + [cs[0].name], cs[0].node, retention, now) {
      i := 0;
    } else {
      var k := UnderChild(dir, cs[1..], retention, now, e);
      i := k + 1;
    }
  }

  lemma {:induction false} ChildUnder(dir: Path, cs: seq<Child>, retention: DirectoryRetention, now: nat, i: nat)
    requires i < |cs|
    ensures forall e :: e in NodeEntries(dir + [cs[i].name], cs[i].node, retention, now) ==> e in Entries(dir, cs, retention, now)
  {
    if i > 0 {
      ChildUnder(dir, cs[1..], retention, now, i - 1);
    }
  }

  /** A listed entry reports the leaf that the tree has at its path. */
  lemma {:induction false} ListedIsThere(dir: Path, cs: seq<Child>, retention: DirectoryRetention, now: nat, e: Entry)
    requires WellFormed(cs) && e in Entries(dir, cs, retention, now)
    ensures dir < e.path
    ensures var found := NodeAt(cs, e.path[|dir|..]); found != [] && Reports(e, found[0])
    decreases cs
  {
    var i := UnderChild(dir, cs, retention, now, e);
    var path, n := dir + [cs[i].name], cs[i].node;
    NodeEntriesAreBelow(path, n, retention, now, e);
    FindAt(cs, i);
    assert e.path[|dir|] == path[|dir|] == cs[i].name;
    if n.Directory? {
      assert WellFormedNode(n);
      ListedIsThere(path, n.children, RetentionForDirectory(path, retention, n.lease), now, e);
      assert e.path[|dir|..][1..] == e.path[|path|..];
    }
  }

  /** A leaf of the tree is listed under its path. */
  lemma {:induction false} ThereIsListed(dir: Path, cs: seq<Child>, retention: DirectoryRetention, now: nat, path: Path)
    returns (e: Entry)
    requires NodeAt(cs, path) != [] && NodeAt(cs, path)[0].Leaf?
    ensures e in Entries(dir, cs, retention, now) && e.path == dir + path
    decreases |path|
  {
    var i := FoundIs(cs, path[0]);
    var here, n := dir + [path[0]], cs[i].node;
    ChildUnder(dir, cs, retention, now, i);
    if |path| == 1 {
      e := EntryOf(here, n, retention, now);
      assert path == [path[0]];
      assert e in NodeEntries(here, n, retention, now);
    } else {
      e := ThereIsListed(here, n.children, RetentionForDirectory(here, retention, n.lease), now, path[1..]);
      assert here + path[1..] == dir + path;
      assert e in NodeEntries(here, n, retention, now);
    }
  }

  /** Exactly the leaves of the tree are listed, as they are. */
  lemma ListingIsTheTrees(inv: Inventory, policy: Policy, root: seq<Child>, now: nat, available: nat)
    requires WellFormed(root) && Describes(inv, policy, root, now, available)
    ensures forall e :: e in inv.entries ==> NodeAt(root, e.path) != [] && Reports(e, NodeAt(root, e.path)[0])
    ensures forall path :: NodeAt(root, path) != [] && NodeAt(root, path)[0].Leaf? ==>
      exists e :: e in inv.entries && e.path == path
  {
    var all := Entries([], root, Protected, now);
    SameMultisetSameMembers(inv.entries, all);
    forall e | e in inv.entries ensures NodeAt(root, e.path) != [] && Reports(e, NodeAt(root, e.path)[0]) {
      ListedIsThere([], root, Protected, now, e);
      assert e.path[0..] == e.path;
    }
    forall path | NodeAt(root, path) != [] && NodeAt(root, path)[0].Leaf?
      ensures exists e :: e in inv.entries && e.path == path
    {
      var e := ThereIsListed([], root, Protected, now, path);
      assert [] + path == path;
    }
  }

  /** Entries come in the order of their paths. */
  lemma EntriesInPathOrder(inv: Inventory, policy: Policy, root: seq<Child>, now: nat, available: nat, i: nat, j: nat)
    requires Describes(inv, policy, root, now, available) && i < j < |inv.entries|
    ensures PathBefore(inv.entries[i].path, inv.entries[j].path)
  {
    assert EntryOrder()(inv.entries[i], inv.entries[j]);
    PathOrderMeans(inv.entries[i].path, inv.entries[j].path);
  }

  // ----- What is scanned -----

  /** The paths of everything below a list of children, directories too. */
  function AllPaths(dir: Path, cs: seq<Child>): seq<Path>
    decreases cs
  {
    if cs == [] then [] else PathsOf(dir + [cs[0].name], cs[0].node) + AllPaths(dir, cs[1..])
  }

  function PathsOf(path: Path, n: Node): seq<Path>
    decreases n
  {
    [path] + if n.Directory? then AllPaths(path, n.children) else []
  }

  lemma {:induction false} CountIsOfPaths(dir: Path, cs: seq<Child>)
    ensures |AllPaths(dir, cs)| == Count(cs)
    decreases cs
  {
    if cs != [] {
      if cs[0].node.Directory? {
        CountIsOfPaths(dir + [cs[0].name], cs[0].node.children);
      }
      CountIsOfPaths(dir, cs[1..]);
    }
  }

  lemma {:induction false} PathIsThere(dir: Path, cs: seq<Child>, p: Path)
    requires WellFormed(cs) && p in AllPaths(dir, cs)
    ensures |p| > |dir| && p[..|dir|] == dir && NodeAt(cs, p[|dir|..]) != []
    decreases cs
  {
    var name, n := cs[0].name, cs[0].node;
    assert WellFormed(cs[1..]) && WellFormedNode(n);
    FindAt(cs, 0);
    if p == dir + [name] {
      assert p[|dir|..] == [name];
    } else if p in PathsOf(dir + [name], n) {
      PathIsThere(dir + [name], n.children, p);
      assert p[..|dir|] == p[..|dir| + 1][..|dir|] && p[|dir|] == p[..|dir| + 1][|dir|];
      assert p[|dir|..][1..] == p[|dir| + 1..];
    } else {
      PathIsThere(dir, cs[1..], p);
      var i := FoundIs(cs[1..], p[|dir|]);
      assert cs[1..][i] == cs[i + 1] && p[|dir|..][0] == p[|dir|];
    }
  }

  lemma {:induction false} ThereIsPath(dir: Path, cs: seq<Child>, p: Path)
    requires WellFormed(cs) && NodeAt(cs, p) != []
    ensures dir + p in AllPaths(dir, cs)
    decreases cs
  {
    var name, n := cs[0].name, cs[0].node;
    assert WellFormed(cs[1..]) && WellFormedNode(n);
    if p[0] != name {
      ThereIsPath(dir, cs[1..], p);
    } else if |p| == 1 {
      assert p == [name];
    } else {
      FindAt(cs, 0);
      ThereIsPath(dir + [name], n.children, p[1..]);
      assert (dir + [name]) + p[1..] == dir + p;
      assert dir + p in PathsOf(dir + [name], n);
    }
  }

  lemma {:induction false} PathsOnce(dir: Path, cs: seq<Child>)
    requires WellFormed(cs)
    ensures Distinct(AllPaths(dir, cs))
    decreases cs
  {
    if cs != [] {
      var name, n := cs[0].name, cs[0].node;
      assert WellFormed(cs[1..]) && WellFormedNode(n);
      PathsOnce(dir, cs[1..]);
      if n.Directory? {
        PathsOnce(dir + [name], n.children);
      }
      forall p | p in PathsOf(dir + [name], n) ensures p !in AllPaths(dir, cs[1..]) {
        FirstNameOf(dir, cs, p);
        if p in AllPaths(dir, cs[1..]) {
          PathIsThere(dir, cs[1..], p);
          var i := FoundIs(cs[1..], p[|dir|]);
          assert false;
        }
      }
      forall p | n.Directory? && p in AllPaths(dir + [name], n.children) ensures p != dir + [name] {
        PathIsThere(dir + [name], n.children, p);
      }
      DistinctConcat([dir + [name]], if n.Directory? then AllPaths(dir + [name], n.children) else []);
      DistinctConcat(PathsOf(dir + [name], n), AllPaths(dir, cs[1..]));
    }
  }

  lemma FirstNameOf(dir: Path, cs: seq<Child>, p: Path)
    requires WellFormed(cs) && cs != [] && p in PathsOf(dir + [cs[0].name], cs[0].node)
    ensures |p| > |dir| && p[|dir|] == cs[0].name
  {
    var name, n := cs[0].name, cs[0].node;
    assert WellFormedNode(n);
    if p != dir + [name] {
      PathIsThere(dir + [name], n.children, p);
      assert p[|dir|] == p[..|dir| + 1][|dir|];
    }
  }

  lemma DistinctConcat<T>(a: seq<T>, b: seq<T>)
    requires Distinct(a) && Distinct(b) && forall x :: x in a ==> x !in b
    ensures Distinct(a + b)
  {
    forall i, j | 0 <= i < j < |a + b| ensures (a + b)[i] != (a + b)[j] {
      if i < |a| <= j {
        assert a[i] in a && b[j - |a|] in b;
      }
    }
  }

  /** The scan counts everything the tree has, directories too, each path once. */
  lemma ScannedIsTheTrees(inv: Inventory, policy: Policy, root: seq<Child>, now: nat, available: nat) returns (ps: seq<Path>)
    requires WellFormed(root) && Describes(inv, policy, root, now, available)
    ensures inv.scannedEntries == |ps| && Distinct(ps) && forall p :: p in ps <==> NodeAt(root, p) != []
  {
    ps := AllPaths([], root);
    CountIsOfPaths([], root);
    PathsOnce([], root);
    forall p ensures p in ps <==> NodeAt(root, p) != [] {
      if p in ps {
        PathIsThere([], root, p);
        assert p[0..] == p;
      }
      if NodeAt(root, p) != [] {
        ThereIsPath([], root, p);
        assert [] + p == p;
      }
    }
  }

  /** The files that are given up, in numbers: everything directly in `transient`, and below
    * one of its directories what has no marker, or what has a marker with a free lock if both
    * are five minutes old. */
  predicate GivenUp(root: seq<Child>, path: Path, modified: nat, now: nat) {
    && |path| >= 2 && path[0] == "transient"
    && (|path| == 2 ||
        match LeaseOf(root, path[1])
        case NoMarker => true
        case MarkerAndLockFree(marker) => marker + 300 <= now && modified + 300 <= now
        case OddMarker => false
        case MarkerAndLockHeld => false)
  }

  lemma ReclaimableExactlyWhen(root: seq<Child>, now: nat, e: Entry)
    requires WellFormed(root) && e in Entries([], root, Protected, now)
    ensures e.classification.Reclaimable? <==> GivenUp(root, e.path, e.modified, now)
  {
    ClassificationIsLocal(root, now, e);
  }

  datatype Measure = Bytes | Files

  /** What the files of a tree weigh that `counts` selects by path and node: their bytes, or
    * one each. */
  function Weight(m: Measure, dir: Path, cs: seq<Child>, counts: (Path, Node) -> bool): nat
    decreases cs
  {
    if cs == [] then 0
    else NodeWeight(m, dir + [cs[0].name], cs[0].node, counts) + Weight(m, dir, cs[1..], counts)
  }

  function NodeWeight(m: Measure, path: Path, n: Node, counts: (Path, Node) -> bool): nat
    decreases n
  {
    match n
    case Leaf(kind, bytes, _, _) => if kind == RegularFile && counts(path, n) then (if m == Bytes then bytes else 1) else 0
    case Directory(_, children) => Weight(m, path, children, counts)
  }

  /** Leaves that apply would refuse: not a regular file, or one with another link. */
  function UnsafeLeaves(cs: seq<Child>): nat
    decreases cs
  {
    if cs == [] then 0 else UnsafeIn(cs[0].node) + UnsafeLeaves(cs[1..])
  }

  function UnsafeIn(n: Node): nat
    decreases n
  {
    match n
    case Leaf(kind, _, _, links) => if kind == RegularFile && links == 1 then 0 else 1
    case Directory(_, children) => UnsafeLeaves(children)
  }

  function Everything(): (Path, Node) -> bool { (path, n) => true }

  /** The leaves of a tree that it gives up at a time. */
  function GivenUpBy(root: seq<Child>, now: nat): (Path, Node) -> bool {
    (path: Path, n: Node) => n.Leaf? && GivenUp(root, path, n.modified, now)
  }

  predicate Totals(m: Measure, c: Column) { c == if m == Bytes then AllBytes else AllFiles }

  predicate TotalsReclaimable(m: Measure, c: Column) { c == if m == Bytes then ReclaimableBytes else ReclaimableFiles }

  lemma LeafWeighs(m: Measure, c: Column, path: Path, n: Node, retention: DirectoryRetention, now: nat)
    requires n.Leaf? && Totals(m, c)
    ensures Sum(NodeEntries(path, n, retention, now), c) == NodeWeight(m, path, n, Everything())
  {
    SumSingle(EntryOf(path, n, retention, now), c);
  }

  lemma {:induction false} WeightOfAll(m: Measure, c: Column, dir: Path, cs: seq<Child>, retention: DirectoryRetention,
          now: nat)
    requires Totals(m, c)
    ensures Sum(Entries(dir, cs, retention, now), c) == Weight(m, dir, cs, Everything())
    decreases cs
  {
    if cs != [] {
      var path, n := dir + [cs[0].name], cs[0].node;
      WeightOfAll(m, c, dir, cs[1..], retention, now);
      SumConcat(NodeEntries(path, n, retention, now), Entries(dir, cs[1..], retention, now), c);
      match n {
        case Leaf(_, _, _, _) => LeafWeighs(m, c, path, n, retention, now);
        case Directory(lease, children) =>
          WeightOfAll(m, c, path, children, RetentionForDirectory(path, retention, lease), now);
      }
    }
  }

  lemma {:induction false} UnsafeOfAll(dir: Path, cs: seq<Child>, retention: DirectoryRetention, now: nat)
    ensures Sum(Entries(dir, cs, retention, now), UnsafeEntries) == UnsafeLeaves(cs)
    decreases cs
  {
    if cs != [] {
      var path, n := dir + [cs[0].name], cs[0].node;
      UnsafeOfAll(dir, cs[1..], retention, now);
      SumConcat(NodeEntries(path, n, retention, now), Entries(dir, cs[1..], retention, now), UnsafeEntries);
      match n {
        case Leaf(_, _, _, _) => SumSingle(EntryOf(path, n, retention, now), UnsafeEntries);
        case Directory(lease, children) =>
          UnsafeOfAll(path, children, RetentionForDirectory(path, retention, lease), now);
      }
    }
  }

  lemma LeafIsGivenUp(m: Measure, c: Column, path: Path, n: Node, retention: DirectoryRetention, now: nat,
          counts: (Path, Node) -> bool)
    requires n.Leaf? && (EntryOf(path, n, retention, now).classification.Reclaimable? <==> counts(path, n))
    requires TotalsReclaimable(m, c)
    ensures Sum(NodeEntries(path, n, retention, now), c) == NodeWeight(m, path, n, counts)
  {
    SumSingle(EntryOf(path, n, retention, now), c);
  }

  /** What entries are classified as is what `counts` says of their leaves. */
  ghost predicate SelectedBy(es: seq<Entry>, counts: (Path, Node) -> bool) {
    forall e, links, bytes :: e in es ==>
      (e.classification.Reclaimable? <==> counts(e.path, Leaf(e.kind, bytes, e.modified, links)))
  }

  /** Selecting by what each entry says of itself. */
  lemma {:induction false} WeightOfReclaimable(m: Measure, c: Column, dir: Path, cs: seq<Child>,
          retention: DirectoryRetention, now: nat, counts: (Path, Node) -> bool)
    requires SelectedBy(Entries(dir, cs, retention, now), counts) && TotalsReclaimable(m, c)
    ensures Sum(Entries(dir, cs, retention, now), c) == Weight(m, dir, cs, counts)
    decreases cs
  {
    if cs != [] {
      var path, n := dir + [cs[0].name], cs[0].node;
      var first, later := NodeEntries(path, n, retention, now), Entries(dir, cs[1..], retention, now);
      SelectedParts(first, later, counts);
      WeightOfReclaimable(m, c, dir, cs[1..], retention, now, counts);
      SumConcat(first, later, c);
      match n {
        case Leaf(_, _, _, _) =>
          assert EntryOf(path, n, retention, now) in first;
          LeafIsGivenUp(m, c, path, n, retention, now, counts);
        case Directory(lease, children) =>
          WeightOfReclaimable(m, c, path, children, RetentionForDirectory(path, retention, lease), now, counts);
      }
    }
  }

  lemma SelectedParts(a: seq<Entry>, b: seq<Entry>, counts: (Path, Node) -> bool)
    requires SelectedBy(a + b, counts)
    ensures SelectedBy(a, counts) && SelectedBy(b, counts)
  {
    assert forall e :: e in a || e in b ==> e in a + b;
  }

  lemma SelectedByTheTree(root: seq<Child>, now: nat)
    requires WellFormed(root)
    ensures SelectedBy(Entries([], root, Protected, now), GivenUpBy(root, now))
  {
    forall e, links, bytes | e in Entries([], root, Protected, now)
      ensures e.classification.Reclaimable? <==> GivenUpBy(root, now)(e.path, Leaf(e.kind, bytes, e.modified, links))
    {
      ReclaimableExactlyWhen(root, now, e);
    }
  }

  lemma DescribedSums(inv: Inventory, policy: Policy, root: seq<Child>, now: nat, available: nat)
    requires Describes(inv, policy, root, now, available)
    ensures
      var all := Entries([], root, Protected, now);
      && inv.usage.bytes == Sum(all, AllBytes) && inv.usage.files == Sum(all, AllFiles)
      && inv.reclaimable.bytes == Sum(all, ReclaimableBytes) && inv.reclaimable.files == Sum(all, ReclaimableFiles)
      && inv.unsafeEntries == Sum(all, UnsafeEntries)
    ensures inv.protected.Plus(inv.reclaimable) == inv.usage
  {
    UsageSplits(Entries([], root, Protected, now));
  }

  /** The reported usages, over the leaves of the tree: all files, those that are given up,
    * and those that are not. */
  lemma UsageIsTheTrees(inv: Inventory, policy: Policy, root: seq<Child>, now: nat, available: nat)
    requires WellFormed(root) && Describes(inv, policy, root, now, available)
    ensures inv.usage == Usage(Weight(Bytes, [], root, Everything()), Weight(Files, [], root, Everything()))
    ensures
      inv.reclaimable == Usage(Weight(Bytes, [], root, GivenUpBy(root, now)), Weight(Files, [], root, GivenUpBy(root, now)))
    ensures inv.protected.Plus(inv.reclaimable) == inv.usage
    ensures inv.unsafeEntries == UnsafeLeaves(root) && inv.available == available
    ensures inv.limits == Evaluate(policy, inv.usage, available)
  {
    DescribedSums(inv, policy, root, now, available);
    WeightOfAll(Bytes, AllBytes, [], root, Protected, now);
    WeightOfAll(Files, AllFiles, [], root, Protected, now);
    UnsafeOfAll([], root, Protected, now);
    SelectedByTheTree(root, now);
    WeightOfReclaimable(Bytes, ReclaimableBytes, [], root, Protected, now, GivenUpBy(root, now));
    WeightOfReclaimable(Files, ReclaimableFiles, [], root, Protected, now, GivenUpBy(root, now));
  }
}
