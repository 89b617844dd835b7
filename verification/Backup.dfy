/** Creating, verifying and restoring a backup bundle. */
module Backup {
  import opened Orders
  import opened ManifestPath
  import opened Paths
  import opened BackupTree
  import opened Wrappers

  const MANIFEST_FILE: string := ['m', 'a', 'n', 'i', 'f', 'e', 's', 't', '.', 'j', 's', 'o', 'n']
  const RESTORED_DATABASE_FILE: string := ['h', 'a', 'r', 'd', 'k', 'n', 'o', 'c', 'k', '.', 'd', 'b']

  /** The content hash of a file, printed. */
  type Hasher = Content -> string

  datatype BackupFile = BackupFile(path: string, blake3: string, bytes: nat)

  /** The manifest's inventory: its header fields are not part of this model. */
  datatype Manifest = Manifest(database: BackupFile, artifacts: seq<BackupFile>)

  // ----- Copying the artifact tree -----

  function DescribeFile(H: Hasher, path: Path, content: Content): BackupFile {
    BackupFile(Join(path), H(content), |content|)
  }

  function FileOf(H: Hasher, e: Entry): (fs: seq<BackupFile>)
    ensures |fs| <= 1
  {
    if e.kind.FileWith? then [DescribeFile(H, e.path, e.kind.content)] else []
  }

  /** What the copy records of the files among its entries. */
  function BackupFiles(H: Hasher, es: seq<Entry>): (fs: seq<BackupFile>)
    ensures |fs| <= |es|
  {
    if es == [] then []
    else
      var e := es[|es| - 1];
      BackupFiles(H, es[..|es| - 1]) + FileOf(H, e)
  }

  predicate FilesPrintable(es: seq<Entry>) {
    forall e :: e in es && e.kind.FileWith? ==> Printable(e.path)
  }

  /** Source trees the copy accepts. */
  predicate CopyAccepts(es: seq<Entry>) {
    Walkable(es, MAX_BACKUP_SOURCE_ENTRIES, MAX_NESTING_DEPTH) && FilesPrintable(es)
  }

  /** What the copy creates, in its order, and what it records. */
  datatype Copied = Copied(written: seq<Entry>, files: seq<BackupFile>)

  /** What the copy has recorded of the entries behind it. */
  predicate Recorded(H: Hasher, written: seq<Entry>, files: seq<BackupFile>) {
    files == BackupFiles(H, written) && FilesPrintable(written)
  }

  lemma RecordOne(H: Hasher, written: seq<Entry>, files: seq<BackupFile>, e: Entry)
    requires Recorded(H, written, files) && (e.kind.FileWith? ==> Printable(e.path))
    ensures Recorded(H, written + [e], files + FileOf(H, e))
  {
    assert (written + [e])[..|written|] == written;
  }

  /** The directory that `path` lies in is the root of the copy or has been created. */
  predicate FolderThere(root: nat, written: seq<Entry>, path: Path) {
    |path| > root && (|path| == root + 1 || Entry(path[..|path| - 1], Folder) in written)
  }

  /** Every directory is created before what lies in it. */
  predicate FoldersFirst(root: nat, written: seq<Entry>) {
    forall k :: 0 <= k < |written| ==> FolderThere(root, written[..k], written[k].path)
  }

  predicate AllFoldersThere(root: nat, written: seq<Entry>, stack: seq<Item>) {
    forall it :: it in stack ==> FolderThere(root, written, it.path)
  }

  /** One more entry is created; what joins the stack lies in it. */
  lemma FoldersStayFirst(root: nat, written: seq<Entry>, stack: seq<Item>, e: Entry, next: seq<Item>)
    requires FoldersFirst(root, written) && AllFoldersThere(root, written, stack) && FolderThere(root, written, e.path)
    requires forall it :: it in next ==> it in stack || (IsDirectlyIn(it.path, e.path) && e.kind == Folder)
    ensures FoldersFirst(root, written + [e]) && AllFoldersThere(root, written + [e], next)
  {
    var grown := written + [e];
    forall k | 0 <= k < |grown| ensures FolderThere(root, grown[..k], grown[k].path) {
      assert grown[..k] == if k < |written| then written[..k] else written;
    }
    forall it | it in next ensures FolderThere(root, grown, it.path) {
      if it !in stack {
        assert it.path[..|it.path| - 1] == e.path && e == Entry(e.path, Folder) && e in grown;
      }
    }
  }

  lemma CopyFinished(H: Hasher, all: seq<Entry>, written: seq<Entry>, files: seq<BackupFile>, entries: nat)
    requires Walking(all, written, [], entries, MAX_BACKUP_SOURCE_ENTRIES, MAX_NESTING_DEPTH) && Recorded(H, written, files)
    ensures CopyAccepts(all) && multiset(written) == multiset(all)
  {
    Finished(all, written, entries, MAX_BACKUP_SOURCE_ENTRIES, MAX_NESTING_DEPTH);
  }

  /** The path as the iterator yields it, printed. */
  method PrintPath(path: Path) returns (r: Option<string>)
    ensures r.Some? <==> Printable(path)
    ensures r.Some? ==> r.value == Join(path)
  {
    r := PathToManifest(AllNormal(path));
    if names :| AllNormal(path) == AllNormal(names) && Printable(names) {
      NormalIsInjective(path, names);
    }
  }

  /** `copy_artifact_tree`, with the limits it is called with. */
  method CopyArtifactTree(H: Hasher, source: seq<Child>) returns (r: Option<Copied>)
    ensures r.Some? <==> CopyAccepts(FlatAll([ARTIFACTS], source))
    ensures r.Some? ==>
      && multiset(r.value.written) == multiset(FlatAll([ARTIFACTS], source))
      && r.value.files == BackupFiles(H, r.value.written)
      && FoldersFirst(1, r.value.written)
  {
    ghost var all := FlatAll([ARTIFACTS], source);
    var budget := new TraversalBudget(MAX_BACKUP_SOURCE_ENTRIES, MAX_NESTING_DEPTH);
    var written: seq<Entry> := [];
    var files: seq<BackupFile> := [];
    var started := Start([ARTIFACTS], source, 1, budget);
    if started.None? {
      return None;
    }
    var stack := started.value;
    while stack != []
      invariant budget.maxEntries == MAX_BACKUP_SOURCE_ENTRIES && budget.maxDepth == MAX_NESTING_DEPTH
      invariant Walking(all, written, stack, budget.entries, budget.maxEntries, budget.maxDepth)
      invariant Recorded(H, written, files)
      invariant FoldersFirst(1, written) && AllFoldersThere(1, written, stack)
      decreases |Rest(stack)|
    {
      var top := stack[|stack| - 1];
      TopIsThere(all, written, stack, budget.entries, budget.maxEntries, budget.maxDepth);
      if top.node.Irregular? {
        return None;
      }
      if top.node.Directory? {
        RecordOne(H, written, files, EntryOf(top));
        assert files + [] == files;
        var entered := Enter(stack, budget, all, written);
        if entered.None? {
          return None;
        }
        FoldersStayFirst(1, written, stack, EntryOf(top), entered.value);
        stack := entered.value;
      } else {
        var printed := PrintPath(top.path);
        if printed.None? {
          return None;
        }
        RecordOne(H, written, files, EntryOf(top));
        files := files + [BackupFile(printed.value, H(top.node.content), |top.node.content|)];
        AdvancePastFile(all, written, stack, budget.entries, budget.maxEntries, budget.maxDepth);
        FoldersStayFirst(1, written, stack, EntryOf(top), stack[..|stack| - 1]);
        stack := stack[..|stack| - 1];
      }
      written := written + [EntryOf(top)];
      // The file limit cannot be reached before the entry limit.
      assert |files| <= MAX_BACKUP_FILES;
    }
    CopyFinished(H, all, written, files, budget.entries);
    return Some(Copied(written, files));
  }

  // ----- The inventory of a bundle -----

  ghost function FilePaths(es: seq<Entry>): set<string> {
    set e | e in es && e.kind.FileWith? :: Join(e.path)
  }

  ghost function FolderPaths(es: seq<Entry>): set<string> {
    set e | e in es && e.kind.Folder? :: Join(e.path)
  }

  predicate AllPrintable(es: seq<Entry>) {
    forall e :: e in es ==> Printable(e.path)
  }

  /** Bundles the inventory walk accepts. */
  ghost predicate InventoryAccepts(es: seq<Entry>) {
    && Walkable(es, MAX_BACKUP_ENTRIES, MAX_NESTING_DEPTH) && AllPrintable(es)
    && |FilePaths(es)| <= MAX_BACKUP_FILES + 2
  }

  datatype Listing = Listing(files: set<string>, directories: set<string>)

  /** What the walk has gathered from the entries behind it. */
  ghost predicate Gathered(done: seq<Entry>, l: Listing) {
    l.files == FilePaths(done) && l.directories == FolderPaths(done) && AllPrintable(done)
  }

  function Gather(l: Listing, e: Entry): Listing {
    match e.kind
    case FileWith(_) => l.(files := l.files + {Join(e.path)})
    case Folder => l.(directories := l.directories + {Join(e.path)})
    case Odd => l
  }

  lemma GatherOne(done: seq<Entry>, l: Listing, e: Entry)
    requires Gathered(done, l) && Printable(e.path)
    ensures Gathered(done + [e], Gather(l, e))
  {
    assert forall x :: x in done + [e] <==> x in done || x == e;
  }

  lemma TooManyFiles(all: seq<Entry>, done: seq<Entry>, stack: seq<Item>, l: Listing, entries: nat,
          maxEntries: nat, maxDepth: nat)
    requires Walking(all, done, stack, entries, maxEntries, maxDepth) && Gathered(done, l)
    requires |l.files| > MAX_BACKUP_FILES + 2
    ensures !InventoryAccepts(all)
  {
    TotalSize(all, done, Rest(stack));
    SubsetIsNoLarger(FilePaths(done), FilePaths(all));
  }

  lemma AllGathered(all: seq<Entry>, done: seq<Entry>, l: Listing)
    requires Gathered(done, l) && forall e :: e in all <==> e in done
    ensures Gathered(all, l)
  {
  }

  /** `collect_inventory`, with the limits it is called with. */
  method CollectInventory(bundle: seq<Child>) returns (r: Option<Listing>)
    ensures r.Some? <==> InventoryAccepts(FlatAll([], bundle))
    ensures r.Some? ==> Gathered(FlatAll([], bundle), r.value)
  {
    ghost var all := FlatAll([], bundle);
    ghost var done: seq<Entry> := [];
    var budget := new TraversalBudget(MAX_BACKUP_ENTRIES, MAX_NESTING_DEPTH);
    var found := Listing({}, {});
    var started := Start([], bundle, 0, budget);
    if started.None? {
      return None;
    }
    var stack := started.value;
    while stack != []
      invariant budget.maxEntries == MAX_BACKUP_ENTRIES && budget.maxDepth == MAX_NESTING_DEPTH
      invariant Walking(all, done, stack, budget.entries, budget.maxEntries, budget.maxDepth)
      invariant Gathered(done, found) && |found.files| <= MAX_BACKUP_FILES + 2
      decreases |Rest(stack)|
    {
      var top := stack[|stack| - 1];
      TopIsThere(all, done, stack, budget.entries, budget.maxEntries, budget.maxDepth);
      if top.node.Irregular? {
        return None;
      }
      var printed := PrintPath(top.path);
      if printed.None? {
        return None;
      }
      GatherOne(done, found, EntryOf(top));
      if top.node.Directory? {
        found := found.(directories := found.directories + {printed.value});
        var entered := Enter(stack, budget, all, done);
        if entered.None? {
          return None;
        }
        stack := entered.value;
      } else {
        found := found.(files := found.files + {printed.value});
        AdvancePastFile(all, done, stack, budget.entries, budget.maxEntries, budget.maxDepth);
        stack := stack[..|stack| - 1];
      }
      done := done + [EntryOf(top)];
      if |found.files| > MAX_BACKUP_FILES + 2 {
        TooManyFiles(all, done, stack, found, budget.entries, budget.maxEntries, budget.maxDepth);
        return None;
      }
    }
    Finished(all, done, budget.entries, budget.maxEntries, budget.maxDepth);
    AllGathered(all, done, found);
    return Some(found);
  }
}
