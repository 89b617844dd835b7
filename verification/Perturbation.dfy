/** Reversible changes to a workspace, undone from a stack of handles. */
module Perturbation {
  import opened Paths
  import opened Wrappers

  const MAX_MUTATION_BYTES: nat := 65536

  type Content = string
  type Path = seq<string>

  datatype Node = Regular(content: Content, links: nat) | Folder | Symlink

  /** What is on disk below the workspace's root. */
  type Files = map<Path, Node>

  // ----- Paths that may be touched -----

  predicate IsGit(name: string) {
    |name| == 4 && name[0] == '.' && name[1] in {'g', 'G'} && name[2] in {'i', 'I'} && name[3] in {'t', 'T'}
  }

  /** What `validate_relative` asks of the names of a path. */
  predicate Relative(path: Path) { path != [] && forall i :: 0 <= i < |path| ==> !IsGit(path[i]) }

  /** Every parent is a directory; the path itself is not a symbolic link. */
  predicate Scoped(files: Files, path: Path) {
    && Relative(path) && (path in files ==> files[path] != Symlink)
    && forall k :: 0 < k < |path| ==> IsFolder(files, path[..k])
  }

  predicate IsFolder(files: Files, path: Path) { path in files && files[path] == Folder }

  /** The names a path stands for if it has no root, dot or parent component, none of them
    * is git's, and there is at least one. */
  function RelativeNames(path: seq<Component>): Option<Path> {
    var names := NormalNames(path);
    if names.Some? && Relative(names.value) then names else None
  }

  method HasGit(path: Path) returns (found: bool)
    ensures found <==> exists i :: 0 <= i < |path| && IsGit(path[i])
  {
    for i := 0 to |path|
      invariant forall k :: 0 <= k < i ==> !IsGit(path[k])
    {
      if IsGit(path[i]) {
        return true;
      }
    }
    return false;
  }

  /** `validate_relative`. */
  method ValidateRelative(path: seq<Component>) returns (r: Option<Path>)
    ensures r == RelativeNames(path)
  {
    if path == [] {
      return None;
    }
    r := CollectNormal(path);
    if r.Some? {
      var git := HasGit(r.value);
      if git {
        return None;
      }
    }
  }

  /** What a metadata lookup finds when every parent so far was found and is no link. */
  datatype Lookup = Found(node: Node) | NotFound | NotADirectory

  function SymlinkMetadata(files: Files, path: Path): Lookup {
    if |path| > 1 && path[..|path| - 1] in files && files[path[..|path| - 1]].Regular? then NotADirectory
    else if path in files then Found(files[path])
    else NotFound
  }

  /** The loop of `scoped_path`. */
  method ReachNames(files: Files, path: Path) returns (ok: bool)
    requires WellFormed(files) && Relative(path)
    ensures ok <==> Scoped(files, path)
  {
    ok := true;
    for i := 1 to |path| + 1
      invariant forall k :: 0 < k < i && k < |path| ==> path[..k] in files && files[path[..k]] != Symlink
      invariant forall k :: 0 < k < i - 1 ==> IsFolder(files, path[..k])
      invariant i == |path| + 1 && path in files ==> files[path] != Symlink
    {
      assert i > 1 ==> path[..i][..i - 1] == path[..i - 1];
      match SymlinkMetadata(files, path[..i]) {
        case Found(Symlink) =>
          assert path[..|path|] == path;
          return false;
        case Found(_) =>
          assert path[..|path|] == path;
        case NotFound =>
          if i != |path| {
            assert !IsFolder(files, path[..i]);
            return false;
          }
          assert path[..|path|] == path;
        case NotADirectory =>
          assert !IsFolder(files, path[..i - 1]);
          return false;
      }
    }
  }

  /** The names of a path that may be touched. */
  function ScopedNames(files: Files, path: seq<Component>): Option<Path> {
    var names := RelativeNames(path);
    if names.Some? && Scoped(files, names.value) then names else None
  }

  /** `scoped_path`. */
  method ScopedPath(files: Files, path: seq<Component>) returns (r: Option<Path>)
    requires WellFormed(files)
    ensures r.Some? <==> exists names :: path == AllNormal(names) && Scoped(files, names)
    ensures r.Some? ==> path == AllNormal(r.value)
    ensures r == ScopedNames(files, path)
  {
    forall names | path == AllNormal(names) ensures NormalNames(path) == Some(names) {
      NamesOfNormal(names);
    }
    r := ValidateRelative(path);
    if r.Some? {
      var reached := ReachNames(files, r.value);
      if !reached {
        return None;
      }
    }
  }

  /** Only directories have anything below them, and a file has at least its own link. */
  predicate WellFormed(files: Files) {
    && (forall p :: p in files && |p| > 1 ==> IsFolder(files, p[..|p| - 1]))
    && forall p :: p in files && files[p].Regular? ==> files[p].links >= 1
  }

  // ----- One restoration -----

  /** A file's contents before its mutation, or that it was absent. */
  datatype Backup = Backup(path: Path, content: Option<Content>)

  /** A path restoration will write to or remove: reachable, and absent or a regular file
    * with no second link. */
  predicate Restorable(files: Files, path: Path) {
    Scoped(files, path) && (path in files ==> files[path].Regular? && files[path].links <= 1)
  }

  function Put(files: Files, b: Backup): Files {
    match b.content
    case Some(content) => files[b.path := Regular(content, 1)]
    case None => files - {b.path}
  }

  /** The files after a restoration, which does nothing when it fails. */
  function Restored(files: Files, restore: Option<Backup>): Files {
    if restore.Some? && Restorable(files, restore.value.path) then Put(files, restore.value) else files
  }

  predicate Succeeds(files: Files, restore: Option<Backup>) {
    restore.Some? ==> Restorable(files, restore.value.path)
  }

  lemma RestoredIsWellFormed(files: Files, restore: Option<Backup>)
    requires WellFormed(files)
    ensures WellFormed(Restored(files, restore))
  {
    if restore.Some? && Restorable(files, restore.value.path) {
      var b := restore.value;
      var after := Put(files, b);
      forall p | p in after && |p| > 1 ensures IsFolder(after, p[..|p| - 1]) {
        if p != b.path {
          assert p in files && IsFolder(files, p[..|p| - 1]);
        }
      }
    }
  }

  class Workspace {
    var files: Files

    /** `fs::write` on a path whose parents exist. */
    method Write(path: Path, content: Content) returns (ok: bool)
      requires Scoped(files, path) && (path in files && files[path].Regular? ==> files[path].links == 1)
      modifies this
      ensures ok <==> !(path in old(files) && old(files)[path].Folder?)
      ensures files == if ok then Put(old(files), Backup(path, Some(content))) else old(files)
    {
      if path in files && files[path].Folder? {
        return false;
      }
      files := files[path := Regular(content, 1)];
      return true;
    }

    /** `fs::remove_file`, an absent file being no error. */
    method RemoveFile(path: Path) returns (ok: bool)
      modifies this
      ensures ok <==> !(path in old(files) && old(files)[path].Folder?)
      ensures files == if ok then Put(old(files), Backup(path, None)) else old(files)
    {
      if path in files && files[path].Folder? {
        return false;
      }
      files := files - {path};
      return true;
    }
  }

  class PerturbationHandle {
    var restore: Option<Backup>

    constructor (restore: Option<Backup>)
      ensures this.restore == restore
    {
      this.restore := restore;
    }

    method Restore(workspace: Workspace) returns (ok: bool)
      requires WellFormed(workspace.files)
      modifies this, workspace
      ensures ok <==> Succeeds(old(workspace.files), old(restore))
      ensures workspace.files == Restored(old(workspace.files), old(restore)) && WellFormed(workspace.files)
      ensures restore == if ok then None else old(restore)
    {
      RestoredIsWellFormed(workspace.files, restore);
      if restore.Some? {
        var path, content := restore.value.path, restore.value.content;
        NamesOfNormal(path);
        var scoped := ScopedPath(workspace.files, AllNormal(path));
        if scoped.None? {
          return false;
        }
        if path in workspace.files && workspace.files[path].Regular? && workspace.files[path].links > 1 {
          return false;
        }
        match content {
          case Some(bytes) => ok := workspace.Write(path, bytes);
          case None => ok := workspace.RemoveFile(path);
        }
        if !ok {
          return;
        }
      }
      restore := None;
      return true;
    }
  }

  // ----- The stack of handles -----

  /** Undoing a stack of restorations, the last one first, each whether or not the ones
    * before it succeeded. */
  function Undone(files: Files, stack: seq<Option<Backup>>): Files
    decreases |stack|
  {
    if stack == [] then files
    else Undone(Restored(files, stack[|stack| - 1]), stack[..|stack| - 1])
  }

  predicate AllSucceed(files: Files, stack: seq<Option<Backup>>)
    decreases |stack|
  {
    stack != [] ==>
      && Succeeds(files, stack[|stack| - 1])
      && AllSucceed(Restored(files, stack[|stack| - 1]), stack[..|stack| - 1])
  }

  lemma OneUndone(before: Files, stack: seq<Option<Backup>>, after: Files, rest: seq<Option<Backup>>)
    requires stack != [] && rest == stack[..|stack| - 1] && after == Restored(before, stack[|stack| - 1])
    ensures Undone(after, rest) == Undone(before, stack)
    ensures AllSucceed(before, stack) <==> Succeeds(before, stack[|stack| - 1]) && AllSucceed(after, rest)
  {
  }

  class AppliedPerturbations {
    var handles: seq<PerturbationHandle>

    constructor ()
      ensures handles == []
    {
      handles := [];
    }

    /** No handle is on the stack twice. */
    ghost predicate Valid()
      reads this
    {
      forall i, j :: 0 <= i < j < |handles| ==> handles[i] != handles[j]
    }

    /** What the handles would restore. */
    ghost function Stack(): (s: seq<Option<Backup>>)
      reads this, handles
      ensures |s| == |handles|
    {
      seq(|handles|, i requires 0 <= i < |handles| reads this, handles => handles[i].restore)
    }

    method Push(handle: PerturbationHandle)
      requires Valid() && handle !in handles
      modifies this
      ensures Valid() && Stack() == old(Stack()) + [handle.restore]
      ensures handles == old(handles) + [handle]
    {
      handles := handles + [handle];
    }

    /** Pops one handle and restores from it.  As it goes out of scope it restores once
      * more: nothing is left to do if it succeeded, and it fails again if it did not. */
    method RemoveLast(workspace: Workspace) returns (ok: bool)
      requires Valid() && WellFormed(workspace.files) && handles != []
      modifies this, workspace, handles
      ensures handles == old(handles)[..|old(handles)| - 1] && Valid() && WellFormed(workspace.files)
      ensures Stack() == old(Stack())[..|handles|]
      ensures
        var top := old(Stack())[|handles|];
        workspace.files == Restored(old(workspace.files), top) && (ok <==> Succeeds(old(workspace.files), top))
    {
      var handle := handles[|handles| - 1];
      handles := handles[..|handles| - 1];
      ok := handle.Restore(workspace);
      var dropped := handle.Restore(workspace);
    }

    method Remove(workspace: Workspace) returns (ok: bool)
      requires Valid() && WellFormed(workspace.files)
      modifies this, workspace, handles
      ensures handles == [] && Valid() && WellFormed(workspace.files)
      ensures workspace.files == Undone(old(workspace.files), old(Stack()))
      ensures ok <==> AllSucceed(old(workspace.files), old(Stack()))
    {
      ok := true;
      while handles != []
        invariant Valid() && WellFormed(workspace.files) && |handles| <= |old(handles)|
        invariant handles == old(handles)[..|handles|]
        invariant Undone(workspace.files, Stack()) == Undone(old(workspace.files), old(Stack()))
        invariant ok && AllSucceed(workspace.files, Stack()) <==> AllSucceed(old(workspace.files), old(Stack()))
        decreases |handles|
      {
        ghost var before, stack := workspace.files, Stack();
        var removed := RemoveLast(workspace);
        OneUndone(before, stack, workspace.files, Stack());
        if !removed {
          ok := false;
        }
      }
    }
  }

  // ----- What undoing achieves -----

  /** What the oldest handle for a path restores. */
  function FirstBackup(stack: seq<Option<Backup>>, p: Path): Option<Backup> {
    if stack == [] then None
    else
      var top, earlier := stack[|stack| - 1], FirstBackup(stack[..|stack| - 1], p);
      if earlier.Some? then earlier else if top.Some? && top.value.path == p then top else None
  }

  /** The node a path holds, if any. */
  function At(files: Files, p: Path): Option<Node> { if p in files then Some(files[p]) else None }

  function AsNode(content: Option<Content>): Option<Node> {
    match content
    case Some(c) => Some(Regular(c, 1))
    case None => None
  }

  /** Restoring one path leaves the same paths restorable. */
  lemma RestoringKeepsRestorable(files: Files, b: Backup, q: Path)
    requires Restorable(files, b.path)
    ensures Restorable(Put(files, b), q) <==> Restorable(files, q)
  {
    var after := Put(files, b);
    assert forall p :: IsFolder(after, p) <==> IsFolder(files, p);
  }

  /** After undoing, a mutated path that can be restored holds what the oldest handle
    * remembers; every other path is as it was. */
  lemma {:induction false} UndoneAt(files: Files, stack: seq<Option<Backup>>, q: Path)
    ensures
      var first := FirstBackup(stack, q);
      At(Undone(files, stack), q)
        == if first.Some? && Restorable(files, q) then AsNode(first.value.content) else At(files, q)
    decreases |stack|
  {
    if stack != [] {
      var top, rest := stack[|stack| - 1], stack[..|stack| - 1];
      UndoneAt(Restored(files, top), rest, q);
      if top.Some? && Restorable(files, top.value.path) {
        RestoringKeepsRestorable(files, top.value, q);
      }
    }
  }

  /** Undoing reports success exactly when every mutated path can be restored. */
  lemma {:induction false} SucceedsExactlyWhen(files: Files, stack: seq<Option<Backup>>)
    ensures AllSucceed(files, stack)
      <==> forall i :: 0 <= i < |stack| && stack[i].Some? ==> Restorable(files, stack[i].value.path)
    decreases |stack|
  {
    if stack != [] {
      var top, rest := stack[|stack| - 1], stack[..|stack| - 1];
      SucceedsExactlyWhen(Restored(files, top), rest);
      if Succeeds(files, top) && top.Some? {
        forall q ensures Restorable(Put(files, top.value), q) <==> Restorable(files, q) {
          RestoringKeepsRestorable(files, top.value, q);
        }
      }
      assert forall i :: 0 <= i < |rest| ==> rest[i] == stack[i];
    }
  }

  // ----- Applying a mutation -----

  /** A path a mutation writes to: absent, or a small regular file without a second link. */
  predicate Mutable(files: Files, path: Path) {
    path in files ==>
      var n := files[path];
      n.Regular? && |n.content| <= MAX_MUTATION_BYTES && n.links == 1
  }

  predicate Accepts(files: Files, path: seq<Component>, content: Content) {
    var names := ScopedNames(files, path);
    names.Some? && |content| <= MAX_MUTATION_BYTES && Mutable(files, names.value)
  }

  /** The names of an accepted mutation's path. */
  function Target(files: Files, path: seq<Component>, content: Content): (names: Path)
    requires Accepts(files, path, content)
    ensures path == AllNormal(names) && Scoped(files, names)
  {
    ScopedNames(files, path).value
  }

  function BackupOf(files: Files, path: Path): Backup
    requires path in files ==> files[path].Regular?
  {
    Backup(path, if path in files then Some(files[path].content) else None)
  }

  /** How a write ends: `Torn` leaves some other contents behind and reports an error. */
  datatype WriteOutcome = Written | Torn(left: Content)

  /** `OtherKind` is a perturbation whose handle restores nothing. */
  datatype Request = FileMutation(path: seq<Component>, content: Content, outcome: WriteOutcome) | OtherKind

  /** Requests that are applied. */
  predicate Applies(files: Files, request: Request) {
    request.FileMutation? ==> Accepts(files, request.path, request.content) && request.outcome.Written?
  }

  function FilesAfter(files: Files, request: Request): Files
    requires Applies(files, request)
  {
    match request
    case FileMutation(path, content, _) => files[Target(files, path, content) := Regular(content, 1)]
    case OtherKind => files
  }

  /** What the handle of an applied request remembers. */
  function Remembers(files: Files, request: Request): Option<Backup>
    requires Applies(files, request)
  {
    match request
    case FileMutation(path, content, _) => Some(BackupOf(files, Target(files, path, content)))
    case OtherKind => None
  }

  /** Writing to the target of a mutation, undone when it is torn. */
  method WriteTarget(workspace: Workspace, path: Path, content: Content, outcome: WriteOutcome)
    returns (r: Option<PerturbationHandle>)
    requires WellFormed(workspace.files) && Scoped(workspace.files, path) && Mutable(workspace.files, path)
    modifies workspace
    ensures WellFormed(workspace.files) && (r.Some? <==> outcome.Written?)
    ensures r.None? ==> workspace.files == old(workspace.files)
    ensures r.Some? ==>
      && fresh(r.value) && r.value.restore == Some(BackupOf(old(workspace.files), path))
      && workspace.files == old(workspace.files)[path := Regular(content, 1)]
  {
    ghost var before := workspace.files;
    var handle := new PerturbationHandle(Some(BackupOf(workspace.files, path)));
    match outcome {
      case Written =>
        RestoredIsWellFormed(workspace.files, Some(Backup(path, Some(content))));
        var ok := workspace.Write(path, content);
        return Some(handle);
      case Torn(left) =>
        RestoredIsWellFormed(workspace.files, Some(Backup(path, Some(left))));
        RestoringKeepsRestorable(workspace.files, Backup(path, Some(left)), path);
        var ok := workspace.Write(path, left);
        // The handle goes out of scope and restores.
        ok := handle.Restore(workspace);
        assert workspace.files == before;
        return None;
    }
  }

  /** `apply`. */
  method Apply(workspace: Workspace, request: Request) returns (r: Option<PerturbationHandle>)
    requires WellFormed(workspace.files)
    modifies workspace
    ensures WellFormed(workspace.files)
    ensures r.Some? <==> Applies(old(workspace.files), request)
    ensures r.None? ==> workspace.files == old(workspace.files)
    ensures r.Some? ==>
      && fresh(r.value) && r.value.restore == Remembers(old(workspace.files), request)
      && workspace.files == FilesAfter(old(workspace.files), request)
  {
    match request {
      case OtherKind =>
        var handle := new PerturbationHandle(None);
        return Some(handle);
      case FileMutation(path, content, outcome) =>
        if |content| > MAX_MUTATION_BYTES {
          return None;
        }
        var scoped := ScopedPath(workspace.files, path);
        if scoped.None? || !Mutable(workspace.files, scoped.value) {
          return None;
        }
        r := WriteTarget(workspace, scoped.value, content, outcome);
    }
  }

  // ----- What may be touched, and how, in the files' own terms -----

  /** Git's own directory, in any case. */
  predicate IsGitsDirectory(name: string) {
    |name| == 4 && forall i :: 0 <= i < 4 ==> name[i] == ".git"[i] || name[i] == ".GIT"[i]
  }

  lemma IsGitMeans(name: string)
    ensures IsGit(name) <==> IsGitsDirectory(name)
  {
  }

  /** A path inside the workspace: through directories, past no link, and not git's. */
  predicate InWorkspace(files: Files, names: Path) {
    && names != [] && (forall i :: 0 <= i < |names| ==> !IsGitsDirectory(names[i]))
    && (forall k :: 0 < k < |names| ==> names[..k] in files && files[names[..k]] == Folder)
    && (names in files ==> files[names] != Symlink)
  }

  lemma ScopedMeans(files: Files, names: Path)
    ensures Scoped(files, names) <==> InWorkspace(files, names)
  {
    forall i | 0 <= i < |names| ensures IsGit(names[i]) <==> IsGitsDirectory(names[i]) {
      IsGitMeans(names[i]);
    }
    if InWorkspace(files, names) {
      forall k | 0 < k < |names| ensures IsFolder(files, names[..k]) {
      }
    }
    if Scoped(files, names) {
      forall k | 0 < k < |names| ensures names[..k] in files && files[names[..k]] == Folder {
        assert IsFolder(files, names[..k]);
      }
    }
  }

  /** A mutation is accepted for a path inside the workspace that is absent or a file of at
    * most 64 KiB with one link, with at most that much to write. */
  lemma AcceptsExactlyWhen(files: Files, names: Path, content: Content)
    ensures Accepts(files, AllNormal(names), content) <==>
      && InWorkspace(files, names) && |content| <= 65_536
      && (names in files ==> files[names].Regular? && files[names].links == 1 && |files[names].content| <= 65_536)
  {
    NamesOfNormal(names);
    ScopedMeans(files, names);
  }

  /** Any other kind of path is refused. */
  lemma OnlyNamesAreAccepted(files: Files, path: seq<Component>, content: Content)
    requires Accepts(files, path, content)
    ensures exists names :: path == AllNormal(names)
  {
    assert path == AllNormal(Target(files, path, content));
  }

  /** A path is restorable inside the workspace when it is absent or a file without a second
    * link. */
  lemma RestorableExactlyWhen(files: Files, names: Path)
    ensures Restorable(files, names) <==>
      InWorkspace(files, names) && (names in files ==> files[names].Regular? && files[names].links <= 1)
  {
    ScopedMeans(files, names);
  }

  /** An applied mutation writes its path and no other, and its handle has what was there. */
  lemma MutationChangesOnePath(files: Files, names: Path, content: Content, p: Path)
    requires Accepts(files, AllNormal(names), content)
    ensures
      var request := FileMutation(AllNormal(names), content, Written);
      && Applies(files, request)
      && At(FilesAfter(files, request), p) == (if p == names then Some(Regular(content, 1)) else At(files, p))
      && Remembers(files, request).Some? && Remembers(files, request).value.path == names
      && AsNode(Remembers(files, request).value.content) == At(files, names)
  {
    NamesOfNormal(names);
  }

  // ----- Whole runs -----

  /** An attempt to apply a perturbation, or anything else that happens to the workspace. */
  datatype Event = Attempt(request: Request) | Interfere(after: Files)

  /** `original` remembers, for each mutated path, the node it held when it was first mutated. */
  datatype State = State(files: Files, stack: seq<Option<Backup>>, original: map<Path, Option<Node>>)

  /** The first mutation of a path is remembered. */
  function Remembering(s: State, request: Request): map<Path, Option<Node>>
    requires Applies(s.files, request)
  {
    match request
    case FileMutation(path, content, _) =>
      var p := Target(s.files, path, content);
      if p in s.original then s.original else s.original[p := At(s.files, p)]
    case OtherKind => s.original
  }

  function Step(s: State, e: Event): State {
    match e
    case Attempt(request) =>
      if Applies(s.files, request) then
        State(FilesAfter(s.files, request), s.stack + [Remembers(s.files, request)], Remembering(s, request))
      else
        s
    case Interfere(after) => s.(files := after)
  }

  function Run(files: Files, events: seq<Event>): State {
    if events == [] then State(files, [], map[]) else Step(Run(files, events[..|events| - 1]), events[|events| - 1])
  }

  lemma FirstBackupSnoc(stack: seq<Option<Backup>>, top: Option<Backup>, p: Path)
    ensures FirstBackup(stack + [top], p)
      == if FirstBackup(stack, p).Some? then FirstBackup(stack, p)
         else if top.Some? && top.value.path == p then top else None
  {
    assert (stack + [top])[..|stack|] == stack;
  }

  /** The oldest handle for a path remembers what it held when it was first mutated. */
  lemma {:induction false} HandlesRemember(files: Files, events: seq<Event>, p: Path)
    ensures
      var s := Run(files, events);
      var first := FirstBackup(s.stack, p);
      && (p in s.original <==> first.Some?)
      && (first.Some? ==> first.value.path == p && AsNode(first.value.content) == s.original[p])
  {
    if events != [] {
      var before, e := Run(files, events[..|events| - 1]), events[|events| - 1];
      HandlesRemember(files, events[..|events| - 1], p);
      if e.Attempt? && Applies(before.files, e.request) {
        FirstBackupSnoc(before.stack, Remembers(before.files, e.request), p);
      }
    }
  }

  /** Whatever happened in between, removing the perturbations gives every path that was
    * mutated and can be restored the node it held when it was first mutated, and leaves
    * every other path alone. */
  lemma RemovalRestoresFirstContents(files: Files, events: seq<Event>, p: Path)
    ensures
      var s := Run(files, events);
      At(Undone(s.files, s.stack), p)
        == if p in s.original && Restorable(s.files, p) then s.original[p] else At(s.files, p)
  {
    var s := Run(files, events);
    HandlesRemember(files, events, p);
    UndoneAt(s.files, s.stack, p);
  }

  lemma {:induction false} StackIsMentioned(stack: seq<Option<Backup>>, i: nat)
    requires i < |stack| && stack[i].Some?
    ensures FirstBackup(stack, stack[i].value.path).Some?
  {
    if i < |stack| - 1 {
      StackIsMentioned(stack[..|stack| - 1], i);
    }
  }

  lemma {:induction false} MentionedIsOnStack(stack: seq<Option<Backup>>, p: Path) returns (i: nat)
    requires FirstBackup(stack, p).Some?
    ensures i < |stack| && stack[i].Some? && stack[i].value.path == p
  {
    if FirstBackup(stack[..|stack| - 1], p).Some? {
      i := MentionedIsOnStack(stack[..|stack| - 1], p);
    } else {
      i := |stack| - 1;
    }
  }

  /** Removal reports success exactly when every mutated path can be restored. */
  lemma RemovalSucceedsExactlyWhen(files: Files, events: seq<Event>)
    ensures
      var s := Run(files, events);
      AllSucceed(s.files, s.stack) <==> forall p :: p in s.original ==> Restorable(s.files, p)
  {
    var s := Run(files, events);
    SucceedsExactlyWhen(s.files, s.stack);
    forall p | p in s.original ensures exists i :: 0 <= i < |s.stack| && s.stack[i].Some? && s.stack[i].value.path == p {
      HandlesRemember(files, events, p);
      var i := MentionedIsOnStack(s.stack, p);
    }
    forall i | 0 <= i < |s.stack| && s.stack[i].Some? ensures s.stack[i].value.path in s.original {
      StackIsMentioned(s.stack, i);
      HandlesRemember(files, events, s.stack[i].value.path);
    }
  }

  /** Interference has touched no path but those mutated before it. */
  predicate OnlyMutatedPathsTouched(files: Files, events: seq<Event>) {
    events != [] ==>
      var before, e := Run(files, events[..|events| - 1]), events[|events| - 1];
      && OnlyMutatedPathsTouched(files, events[..|events| - 1])
      && (e.Interfere? ==> Agree(before.files, e.after, before.original.Keys))
  }

  predicate Agree(a: Files, b: Files, apart: set<Path>) {
    && (forall p :: p in a && p !in apart ==> p in b && b[p] == a[p])
    && (forall p :: p in b && p !in apart ==> p in a)
  }

  lemma {:induction false} UnmutatedPathsAreAsAtTheStart(files: Files, events: seq<Event>, p: Path)
    requires OnlyMutatedPathsTouched(files, events)
    ensures
      var s := Run(files, events);
      if p in s.original then s.original[p] == At(files, p) else At(s.files, p) == At(files, p)
  {
    if events != [] {
      UnmutatedPathsAreAsAtTheStart(files, events[..|events| - 1], p);
    }
  }

  /** If only mutated files changed in between, and all of them can be restored, removal
    * gives back exactly the workspace of the start. */
  lemma RemovalGivesBackTheWorkspace(files: Files, events: seq<Event>)
    requires OnlyMutatedPathsTouched(files, events)
    requires var s := Run(files, events); forall p :: p in s.original ==> Restorable(s.files, p)
    ensures var s := Run(files, events); Undone(s.files, s.stack) == files
  {
    var s := Run(files, events);
    var undone := Undone(s.files, s.stack);
    forall p ensures At(undone, p) == At(files, p) {
      RemovalRestoresFirstContents(files, events, p);
      UnmutatedPathsAreAsAtTheStart(files, events, p);
    }
    SameNodes(undone, files);
  }

  lemma SameNodes(a: Files, b: Files)
    requires forall p :: At(a, p) == At(b, p)
    ensures a == b
  {
    forall p ensures p in a <==> p in b {
      assert At(a, p) == At(b, p);
    }
    forall p | p in a ensures a[p] == b[p] {
      assert At(a, p) == At(b, p);
    }
  }

  // ----- The objects run as the events say -----

  function Attempts(requests: seq<Request>): (events: seq<Event>)
    ensures |events| == |requests|
  {
    seq(|requests|, i requires 0 <= i < |requests| => Attempt(requests[i]))
  }

  lemma OneMoreEvent(files: Files, events: seq<Event>, e: Event)
    ensures Run(files, events + [e]) == Step(Run(files, events), e)
  {
    assert (events + [e])[..|events|] == events;
  }

  lemma OneMoreAttempt(files: Files, requests: seq<Request>, k: nat)
    requires k < |requests|
    ensures Run(files, Attempts(requests[..k + 1])) == Step(Run(files, Attempts(requests[..k])), Attempt(requests[k]))
  {
    assert Attempts(requests[..k + 1]) == Attempts(requests[..k]) + [Attempt(requests[k])];
    OneMoreEvent(files, Attempts(requests[..k]), Attempt(requests[k]));
  }

  /** Each request can be applied when its turn comes. */
  predicate AllApply(files: Files, requests: seq<Request>)
    decreases |requests|
  {
    requests != [] ==>
      var front := requests[..|requests| - 1];
      AllApply(files, front) && Applies(Run(files, Attempts(front)).files, requests[|requests| - 1])
  }

  lemma OneMoreApplies(files: Files, requests: seq<Request>, k: nat)
    requires k < |requests|
    ensures AllApply(files, requests[..k + 1])
      <==> AllApply(files, requests[..k]) && Applies(Run(files, Attempts(requests[..k])).files, requests[k])
    ensures AllApply(files, requests) ==> AllApply(files, requests[..k + 1])
    decreases |requests| - k
  {
    assert requests[..k + 1][..k] == requests[..k];
    if k + 1 < |requests| {
      OneMoreApplies(files, requests, k + 1);
    } else {
      assert requests[..k + 1] == requests;
    }
  }

  lemma {:induction false} AttemptsDoNotInterfere(files: Files, requests: seq<Request>)
    ensures OnlyMutatedPathsTouched(files, Attempts(requests))
    decreases |requests|
  {
    if requests != [] {
      var front := requests[..|requests| - 1];
      assert Attempts(requests)[..|requests| - 1] == Attempts(front);
      AttemptsDoNotInterfere(files, front);
    }
  }

  /** Without interference every mutated path can be restored, as it is. */
  lemma {:induction false} AppliedCanBeRestored(files: Files, requests: seq<Request>, p: Path)
    ensures var s := Run(files, Attempts(requests)); p in s.original ==> Restorable(s.files, p)
    decreases |requests|
  {
    if requests != [] {
      var front, request := requests[..|requests| - 1], requests[|requests| - 1];
      var before := Run(files, Attempts(front));
      assert Attempts(requests)[..|front|] == Attempts(front);
      AppliedCanBeRestored(files, front, p);
      if request.FileMutation? && Applies(before.files, request) {
        var target := Target(before.files, request.path, request.content);
        RestoringKeepsRestorable(before.files, Backup(target, Some(request.content)), p);
      }
    }
  }

  /** Undoing what was applied, before anything else happens, gives back the start. */
  lemma UndoingAttempts(files: Files, requests: seq<Request>)
    ensures var s := Run(files, Attempts(requests)); Undone(s.files, s.stack) == files
  {
    forall p | p in Run(files, Attempts(requests)).original ensures Restorable(Run(files, Attempts(requests)).files, p) {
      AppliedCanBeRestored(files, requests, p);
    }
    AttemptsDoNotInterfere(files, requests);
    RemovalGivesBackTheWorkspace(files, Attempts(requests));
  }

  /** One round: the handle of what was applied goes on the stack. */
  method ApplyNext(workspace: Workspace, applied: AppliedPerturbations, request: Request) returns (ok: bool)
    requires WellFormed(workspace.files) && applied.Valid()
    modifies workspace, applied
    ensures WellFormed(workspace.files) && applied.Valid()
    ensures ok <==> Applies(old(workspace.files), request)
    ensures !ok ==> workspace.files == old(workspace.files)
    ensures !ok ==> applied.handles == old(applied.handles) && applied.Stack() == old(applied.Stack())
    ensures ok ==> workspace.files == FilesAfter(old(workspace.files), request)
    ensures ok ==> applied.Stack() == old(applied.Stack()) + [Remembers(old(workspace.files), request)]
    ensures forall j :: 0 <= j < |applied.handles| ==>
      (j < |old(applied.handles)| && applied.handles[j] == old(applied.handles)[j]) || fresh(applied.handles[j])
  {
    var handle := Apply(workspace, request);
    if handle.None? {
      return false;
    }
    applied.Push(handle.value);
    return true;
  }

  /** The handles go out of scope, which removes them. */
  method Abandon(workspace: Workspace, applied: AppliedPerturbations, ghost start: Files, ghost requests: seq<Request>)
    requires WellFormed(workspace.files) && applied.Valid()
    requires var s := Run(start, Attempts(requests)); workspace.files == s.files && applied.Stack() == s.stack
    modifies workspace, applied, applied.handles
    ensures workspace.files == start && WellFormed(start)
  {
    UndoingAttempts(start, requests);
    var removed := applied.Remove(workspace);
  }

  /** `resilience::runtime::apply`: all of them, or none and an untouched workspace. */
  method ApplyAll(workspace: Workspace, requests: seq<Request>) returns (r: Option<AppliedPerturbations>)
    requires WellFormed(workspace.files)
    modifies workspace
    ensures WellFormed(workspace.files)
    ensures r.Some? <==> AllApply(old(workspace.files), requests)
    ensures r.None? ==> workspace.files == old(workspace.files)
    ensures r.Some? ==>
      var s := Run(old(workspace.files), Attempts(requests));
      && fresh(r.value) && fresh(r.value.handles) && r.value.Valid()
      && workspace.files == s.files && r.value.Stack() == s.stack
  {
    var applied := new AppliedPerturbations();
    ghost var start := workspace.files;
    for i := 0 to |requests|
      invariant WellFormed(workspace.files) && fresh(applied) && applied.Valid()
      invariant forall j :: 0 <= j < |applied.handles| ==> fresh(applied.handles[j])
      invariant workspace.files == Run(start, Attempts(requests[..i])).files
      invariant applied.Stack() == Run(start, Attempts(requests[..i])).stack
      invariant AllApply(start, requests[..i])
    {
      OneMoreAttempt(start, requests, i);
      OneMoreApplies(start, requests, i);
      var ok := ApplyNext(workspace, applied, requests[i]);
      if !ok {
        Abandon(workspace, applied, start, requests[..i]);
        return None;
      }
    }
    assert requests[..|requests|] == requests;
    return Some(applied);
  }

  /** A run under perturbations: they are applied, the commands leave the workspace as
    * `after`, and they are removed. */
  method RunPerturbed(workspace: Workspace, requests: seq<Request>, after: Files) returns (applied: bool, removed: bool)
    requires WellFormed(workspace.files) && WellFormed(after)
    modifies workspace
    ensures applied <==> AllApply(old(workspace.files), requests)
    ensures !applied ==> workspace.files == old(workspace.files)
    ensures applied ==>
      var s := Run(old(workspace.files), Attempts(requests) + [Interfere(after)]);
      && workspace.files == Undone(s.files, s.stack)
      && (removed <==> forall p :: p in s.original ==> Restorable(after, p))
    ensures
      var s := Run(old(workspace.files), Attempts(requests));
      applied && removed && Agree(s.files, after, s.original.Keys) ==> workspace.files == old(workspace.files)
  {
    ghost var start := workspace.files;
    var handles := ApplyAll(workspace, requests);
    if handles.None? {
      return false, true;
    }
    ghost var events := Attempts(requests) + [Interfere(after)];
    OneMoreEvent(start, Attempts(requests), Interfere(after));
    workspace.files := after;
    removed := handles.value.Remove(workspace);
    RemovalSucceedsExactlyWhen(start, events);
    if removed && Agree(Run(start, Attempts(requests)).files, after, Run(start, events).original.Keys) {
      UntouchedUntilNow(start, requests, after);
      RemovalGivesBackTheWorkspace(start, events);
    }
    return true, removed;
  }

  lemma UntouchedUntilNow(files: Files, requests: seq<Request>, after: Files)
    requires
      var s := Run(files, Attempts(requests));
      Agree(s.files, after, s.original.Keys)
    ensures OnlyMutatedPathsTouched(files, Attempts(requests) + [Interfere(after)])
  {
    var events := Attempts(requests);
    assert (events + [Interfere(after)])[..|events|] == events;
    AttemptsDoNotInterfere(files, requests);
  }
}
