/** The two bounded walks of a backup: the copy of the artifact tree into the bundle,
  * and the inventory of a bundle.  Both pop entries off an explicit stack and count
  * them against a budget; both are compared with one recursive listing of the tree.
  */
module BackupTree {
  import opened Orders
  import opened ManifestPath
  import opened Paths
  import opened Wrappers

  const MAX_BACKUP_FILES: nat := 100_000
  const BACKUP_FIXED_ENTRY_COUNT: nat := 3
  const MAX_BACKUP_ENTRIES: nat := MAX_BACKUP_FILES + BACKUP_FIXED_ENTRY_COUNT
  const MAX_BACKUP_SOURCE_ENTRIES: nat := MAX_BACKUP_ENTRIES - BACKUP_FIXED_ENTRY_COUNT

  type Content = string
  type Path = seq<string>

  // ----- The tree and its listing -----

  /** `Irregular` is a symbolic link or anything else that is neither file nor directory. */
  datatype Node = File(content: Content) | Directory(children: seq<Child>) | Irregular

  datatype Child = Child(name: string, node: Node)

  datatype Kind = FileWith(content: Content) | Folder | Odd

  datatype Entry = Entry(path: Path, kind: Kind)

  /** Names are file names, and no directory holds a name twice. */
  predicate WellNamed(cs: seq<Child>)
    decreases cs, 1
  {
    && (forall i, j :: 0 <= i < j < |cs| ==> cs[i].name != cs[j].name)
    && forall i :: 0 <= i < |cs| ==> Plain(cs[i].name) && WellNamedNode(cs[i].node)
  }

  predicate WellNamedNode(n: Node)
    decreases n, 0
  {
    n.Directory? ==> WellNamed(n.children)
  }

  function KindOf(n: Node): Kind {
    match n
    case File(content) => FileWith(content)
    case Directory(_) => Folder
    case Irregular => Odd
  }

  /** A node and everything below it. */
  function Flat(path: Path, n: Node): (es: seq<Entry>)
    ensures |es| >= 1 && es[0] == Entry(path, KindOf(n))
    decreases n
  {
    [Entry(path, KindOf(n))] + if n.Directory? then FlatAll(path, n.children) else []
  }

  function FlatAll(dir: Path, cs: seq<Child>): (es: seq<Entry>)
    ensures |es| >= |cs|
    decreases cs
  {
    if cs == [] then [] else Flat(dir + [cs[0].name], cs[0].node) + FlatAll(dir, cs[1..])
  }

  // ----- The stack -----

  datatype Item = Item(path: Path, node: Node, depth: nat)

  /** What the entries on the stack stand for. */
  function Rest(stack: seq<Item>): (es: seq<Entry>)
    ensures |es| >= |stack|
  {
    if stack == [] then []
    else
      var top := stack[|stack| - 1];
      Rest(stack[..|stack| - 1]) + Flat(top.path, top.node)
  }

  predicate IsDirectlyIn(path: Path, dir: Path) { |path| == |dir| + 1 && path[..|dir|] == dir }

  function Items(dir: Path, cs: seq<Child>, depth: nat): (items: seq<Item>)
    ensures |items| == |cs|
    ensures forall it :: it in items ==> it.depth == depth && IsDirectlyIn(it.path, dir)
  {
    if cs == [] then [] else [Item(dir + [cs[0].name], cs[0].node, depth)] + Items(dir, cs[1..], depth)
  }

  lemma {:induction false} RestConcat(a: seq<Item>, b: seq<Item>)
    ensures Rest(a + b) == Rest(a) + Rest(b)
  {
    if b == [] {
      assert a + b == a;
    } else {
      assert (a + b)[..|a + b| - 1] == a + b[..|b| - 1];
      RestConcat(a, b[..|b| - 1]);
    }
  }

  lemma RestSingle(it: Item)
    ensures Rest([it]) == Flat(it.path, it.node)
  {
    assert [it][..0] == [];
  }

  lemma RestAround(x: seq<Item>, e: Item, y: seq<Item>)
    ensures multiset(Rest(x + [e] + y)) == multiset(Flat(e.path, e.node)) + multiset(Rest(x + y))
  {
    RestConcat(x + [e], y);
    RestConcat(x, [e]);
    RestConcat(x, y);
    RestSingle(e);
    MoveToFront(Rest(x), Rest([e]), Rest(y));
  }

  lemma {:induction false} RestPermutation(a: seq<Item>, b: seq<Item>)
    requires multiset(a) == multiset(b)
    ensures multiset(Rest(a)) == multiset(Rest(b))
    decreases |a|
  {
    SameMultisetSameMembers(a, b);
    if a == [] {
      assert b == [];
    } else {
      var e := a[0];
      var w, x := SplitAround(a, e);
      var y, z := SplitAround(b, e);
      RestPermutation(w + x, y + z);
      RestAround(w, e, x);
      RestAround(y, e, z);
    }
  }

  lemma {:induction false} RestItems(dir: Path, cs: seq<Child>, depth: nat)
    ensures Rest(Items(dir, cs, depth)) == FlatAll(dir, cs)
  {
    if cs != [] {
      var first := Item(dir + [cs[0].name], cs[0].node, depth);
      RestItems(dir, cs[1..], depth);
      RestConcat([first], Items(dir, cs[1..], depth));
      RestSingle(first);
    }
  }

  function NameOrder(): (Item, Item) -> bool {
    (a: Item, b: Item) => StringOrder()(LastName(a.path), LastName(b.path))
  }

  function LastName(path: Path): string { if path == [] then "" else path[|path| - 1] }

  // ----- The budget -----

  class TraversalBudget {
    const maxEntries: nat
    const maxDepth: nat
    var entries: nat

    constructor (maxEntries: nat, maxDepth: nat)
      ensures this.maxEntries == maxEntries && this.maxDepth == maxDepth && entries == 0
    {
      this.maxEntries := maxEntries;
      this.maxDepth := maxDepth;
      entries := 0;
    }

    method Record(depth: nat) returns (ok: bool)
      modifies this
      ensures ok <==> depth <= maxDepth && old(entries) + 1 <= maxEntries
      ensures entries == if depth <= maxDepth then old(entries) + 1 else old(entries)
    {
      if depth > maxDepth {
        return false;
      }
      entries := entries + 1;
      return entries <= maxEntries;
    }
  }

  /** Whether a directory's entries fit: each of them is one level down. */
  predicate Fits(entries: nat, more: nat, depth: nat, maxEntries: nat, maxDepth: nat) {
    more == 0 || (depth + 1 <= maxDepth && entries + more <= maxEntries)
  }

  /** `bounded_sorted_entries`. */
  method BoundedSortedEntries(dir: Path, cs: seq<Child>, depth: nat, budget: TraversalBudget)
    returns (r: Option<seq<Item>>)
    modifies budget
    ensures r.Some? <==> Fits(old(budget.entries), |cs|, depth, budget.maxEntries, budget.maxDepth)
    ensures r.Some? ==>
      r.value == Sort(NameOrder(), Items(dir, cs, depth + 1)) && budget.entries == old(budget.entries) + |cs|
  {
    for i := 0 to |cs|
      invariant budget.entries == old(budget.entries) + i
      invariant i > 0 ==> depth + 1 <= budget.maxDepth && budget.entries <= budget.maxEntries
    {
      var ok := budget.Record(depth + 1);
      if !ok {
        return None;
      }
    }
    return Some(Sort(NameOrder(), Items(dir, cs, depth + 1)));
  }

  /** Depths on the stack are path lengths: both walks start at the depth of their root. */
  predicate DepthsMatch(stack: seq<Item>, maxDepth: nat) {
    forall it :: it in stack ==> it.depth == |it.path| <= maxDepth
  }

  /** `push_copy_children` and `push_inventory_children`. */
  method PushChildren(stack: seq<Item>, dir: Path, cs: seq<Child>, depth: nat, budget: TraversalBudget)
    returns (r: Option<seq<Item>>)
    requires depth == |dir| && DepthsMatch(stack, budget.maxDepth)
    modifies budget
    ensures r.Some? <==> Fits(old(budget.entries), |cs|, depth, budget.maxEntries, budget.maxDepth)
    ensures r.Some? ==>
      && budget.entries == old(budget.entries) + |cs| && |r.value| == |stack| + |cs|
      && DepthsMatch(r.value, budget.maxDepth)
      && multiset(Rest(r.value)) == multiset(Rest(stack)) + multiset(FlatAll(dir, cs))
      && forall it :: it in r.value ==> it in stack || IsDirectlyIn(it.path, dir)
  {
    var entries := BoundedSortedEntries(dir, cs, depth, budget);
    if entries.None? {
      return None;
    }
    PushedRest(stack, dir, cs, depth + 1);
    ghost var items := Items(dir, cs, depth + 1);
    SameMultisetSameMembers(Reverse(entries.value), items);
    assert forall it :: it in Reverse(entries.value) ==> it in items;
    return Some(stack + Reverse(entries.value));
  }

  lemma PushedRest(stack: seq<Item>, dir: Path, cs: seq<Child>, depth: nat)
    ensures
      var items := Items(dir, cs, depth);
      var pushed := Reverse(Sort(NameOrder(), items));
      && multiset(pushed) == multiset(items)
      && multiset(Rest(stack + pushed)) == multiset(Rest(stack)) + multiset(FlatAll(dir, cs))
  {
    var items := Items(dir, cs, depth);
    var pushed := Reverse(Sort(NameOrder(), items));
    SortPermutes(NameOrder(), items);
    RestPermutation(pushed, items);
    RestItems(dir, cs, depth);
    RestConcat(stack, pushed);
  }

  // ----- What a walk accepts -----

  predicate WithinDepth(es: seq<Entry>, maxDepth: nat) {
    forall e :: e in es ==> |e.path| <= maxDepth && e.kind != Odd
  }

  predicate Walkable(es: seq<Entry>, maxEntries: nat, maxDepth: nat) {
    |es| <= maxEntries && WithinDepth(es, maxDepth)
  }

  /** `done` is behind the walk, `stack` before it, and every entry of either was recorded. */
  ghost predicate Walking(all: seq<Entry>, done: seq<Entry>, stack: seq<Item>, entries: nat, maxEntries: nat,
          maxDepth: nat) {
    && multiset(done) + multiset(Rest(stack)) == multiset(all)
    && entries == |done| + |stack| <= maxEntries
    && DepthsMatch(stack, maxDepth)
    && WithinDepth(done, maxDepth)
  }

  lemma WithinDepthGrows(done: seq<Entry>, e: Entry, maxDepth: nat)
    requires WithinDepth(done, maxDepth) && |e.path| <= maxDepth && e.kind != Odd
    ensures WithinDepth(done + [e], maxDepth)
  {
  }

  lemma TotalSize(all: seq<Entry>, a: seq<Entry>, b: seq<Entry>)
    requires multiset(a) + multiset(b) == multiset(all)
    ensures |all| == |a| + |b|
    ensures forall e :: e in all <==> e in a || e in b
  {
    SameMultisetSameMembers(all, a + b);
  }

  function EntryOf(it: Item): Entry { Entry(it.path, KindOf(it.node)) }

  function Below(n: Node): seq<Child> { if n.Directory? then n.children else [] }

  /** Splitting the entry on top off the stack. */
  lemma PopRest(stack: seq<Item>)
    requires stack != []
    ensures
      var top := stack[|stack| - 1];
      && Rest(stack) == Rest(stack[..|stack| - 1]) + ([EntryOf(top)] + FlatAll(top.path, Below(top.node)))
      && EntryOf(top) in Rest(stack)
  {
    var top := stack[|stack| - 1];
    assert Flat(top.path, top.node) == [EntryOf(top)] + FlatAll(top.path, Below(top.node));
    assert EntryOf(top) in [EntryOf(top)] + FlatAll(top.path, Below(top.node));
  }

  lemma TopIsThere(all: seq<Entry>, done: seq<Entry>, stack: seq<Item>, entries: nat, maxEntries: nat, maxDepth: nat)
    requires Walking(all, done, stack, entries, maxEntries, maxDepth) && stack != []
    ensures EntryOf(stack[|stack| - 1]) in all
  {
    PopRest(stack);
    TotalSize(all, done, Rest(stack));
  }

  lemma MoveAcross<T>(all: seq<T>, done: seq<T>, stack: seq<T>, below: seq<T>, e: T, more: seq<T>, next: seq<T>)
    requires multiset(done) + multiset(stack) == multiset(all) && stack == below + ([e] + more)
    requires multiset(next) == multiset(below) + multiset(more)
    ensures multiset(done + [e]) + multiset(next) == multiset(all)
    ensures |next| < |stack|
  {
    assert multiset(stack) == multiset(below) + multiset([e]) + multiset(more);
    assert |multiset(next)| == |next| && |multiset(stack)| == |stack|;
  }

  /** One round of a walk: the entry on top is done and its children are on the stack. */
  lemma Advance(all: seq<Entry>, done: seq<Entry>, stack: seq<Item>, next: seq<Item>, entries: nat,
          maxEntries: nat, maxDepth: nat)
    requires Walking(all, done, stack, entries, maxEntries, maxDepth) && stack != []
    requires var top := stack[|stack| - 1];
      && top.node != Irregular
      && |next| == |stack| - 1 + |Below(top.node)| && entries + |Below(top.node)| <= maxEntries
      && DepthsMatch(next, maxDepth)
      && multiset(Rest(next)) == multiset(Rest(stack[..|stack| - 1])) + multiset(FlatAll(top.path, Below(top.node)))
    ensures
      var top := stack[|stack| - 1];
      Walking(all, done + [EntryOf(top)], next, entries + |Below(top.node)|, maxEntries, maxDepth)
    ensures |Rest(next)| < |Rest(stack)|
  {
    var top := stack[|stack| - 1];
    var below := Rest(stack[..|stack| - 1]);
    var more := FlatAll(top.path, Below(top.node));
    PopRest(stack);
    MoveAcross(all, done, Rest(stack), below, EntryOf(top), more, Rest(next));
    assert top in stack;
    WithinDepthGrows(done, EntryOf(top), maxDepth);
  }

  lemma DropTop(stack: seq<Item>, maxDepth: nat)
    requires stack != [] && DepthsMatch(stack, maxDepth)
    ensures DepthsMatch(stack[..|stack| - 1], maxDepth)
  {
  }

  /** Children that do not fit are entries too many or an entry too deep. */
  lemma NoFit(all: seq<Entry>, done: seq<Entry>, stack: seq<Item>, entries: nat, maxEntries: nat, maxDepth: nat)
    requires Walking(all, done, stack, entries, maxEntries, maxDepth) && stack != []
    requires var top := stack[|stack| - 1];
      !Fits(entries, |Below(top.node)|, top.depth, maxEntries, maxDepth)
    ensures !Walkable(all, maxEntries, maxDepth)
  {
    var top := stack[|stack| - 1];
    var below := Rest(stack[..|stack| - 1]);
    PopRest(stack);
    TotalSize(all, done, Rest(stack));
    assert top in stack;
    NoFitAtRoot(top.path, Below(top.node));
    assert FlatAll(top.path, Below(top.node))[0] in all;
  }

  lemma NoFitAtRoot(dir: Path, cs: seq<Child>)
    requires cs != []
    ensures
      var below := FlatAll(dir, cs);
      |below| >= |cs| && |below[0].path| == |dir| + 1 && below[0] in below
  {
    var first := Flat(dir + [cs[0].name], cs[0].node);
    assert first[0] == FlatAll(dir, cs)[0];
  }

  lemma Finished(all: seq<Entry>, done: seq<Entry>, entries: nat, maxEntries: nat, maxDepth: nat)
    requires Walking(all, done, [], entries, maxEntries, maxDepth)
    ensures multiset(done) == multiset(all) && Walkable(all, maxEntries, maxDepth)
    ensures forall e :: e in all <==> e in done
  {
    SameMultisetSameMembers(done, all);
  }

  /** A file on top leaves nothing behind it. */
  lemma AdvancePastFile(all: seq<Entry>, done: seq<Entry>, stack: seq<Item>, entries: nat, maxEntries: nat, maxDepth: nat)
    requires Walking(all, done, stack, entries, maxEntries, maxDepth) && stack != []
    requires stack[|stack| - 1].node.File?
    ensures Walking(all, done + [EntryOf(stack[|stack| - 1])], stack[..|stack| - 1], entries, maxEntries, maxDepth)
    ensures |Rest(stack[..|stack| - 1])| < |Rest(stack)|
  {
    DropTop(stack, maxDepth);
    Advance(all, done, stack, stack[..|stack| - 1], entries, maxEntries, maxDepth);
  }

  /** The first push of a walk. */
  method Start(dir: Path, cs: seq<Child>, depth: nat, budget: TraversalBudget) returns (r: Option<seq<Item>>)
    requires depth == |dir| && budget.entries == 0
    modifies budget
    ensures r.None? ==> !Walkable(FlatAll(dir, cs), budget.maxEntries, budget.maxDepth)
    ensures r.Some? ==>
      && Walking(FlatAll(dir, cs), [], r.value, budget.entries, budget.maxEntries, budget.maxDepth)
      && forall it :: it in r.value ==> IsDirectlyIn(it.path, dir)
  {
    r := PushChildren([], dir, cs, depth, budget);
    if r.None? {
      NoFitAtRoot(dir, cs);
    }
  }

  /** The push for a directory that has just been popped. */
  method Enter(stack: seq<Item>, budget: TraversalBudget, ghost all: seq<Entry>, ghost done: seq<Entry>)
    returns (r: Option<seq<Item>>)
    requires Walking(all, done, stack, budget.entries, budget.maxEntries, budget.maxDepth)
    requires stack != [] && stack[|stack| - 1].node.Directory?
    modifies budget
    ensures r.None? ==> !Walkable(all, budget.maxEntries, budget.maxDepth)
    ensures r.Some? ==>
      && Walking(all, done + [EntryOf(stack[|stack| - 1])], r.value, budget.entries, budget.maxEntries, budget.maxDepth)
      && |Rest(r.value)| < |Rest(stack)|
      && forall it :: it in r.value ==> it in stack || IsDirectlyIn(it.path, stack[|stack| - 1].path)
  {
    var top := stack[|stack| - 1];
    assert top in stack;
    ghost var entries := budget.entries;
    DropTop(stack, budget.maxDepth);
    r := PushChildren(stack[..|stack| - 1], top.path, top.node.children, top.depth, budget);
    if r.None? {
      NoFit(all, done, stack, entries, budget.maxEntries, budget.maxDepth);
    } else {
      Advance(all, done, stack, r.value, entries, budget.maxEntries, budget.maxDepth);
    }
  }
}
