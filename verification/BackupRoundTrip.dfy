/** What a backup promises: a copy the limits accept verifies, exactly unless a name
  * holds a backslash or a directory's path is too long; and restoring gives back the
  * source's files.
  */
module BackupRoundTrip {
  import opened Orders
  import opened ManifestPath
  import opened Paths
  import opened BackupTree
  import opened BackupPaths
  import opened Backup
  import opened BackupBundle
  import opened BackupStaging
  import opened Wrappers

  // ----- A bundle as it is on disk after the copy -----

  /** What a bundle holds besides the copied entries. */
  function Fixed(text: Content, database: Content): (es: seq<Entry>)
    ensures |es| == BACKUP_FIXED_ENTRY_COUNT
  {
    [Entry([MANIFEST_FILE], FileWith(text)), Entry([DATABASE_FILE], FileWith(database)), Entry([ARTIFACTS], Folder)]
  }

  /** The copy of `source` wrote `written`. */
  ghost predicate CopyWrote(source: seq<Child>, written: seq<Entry>) {
    && WellNamed(source) && CopyAccepts(FlatAll([ARTIFACTS], source))
    && multiset(written) == multiset(FlatAll([ARTIFACTS], source))
  }

  /** The bundle holds the fixed entries, what the copy wrote, and nothing else. */
  ghost predicate BundleHolds(bundle: seq<Child>, text: Content, database: Content, written: seq<Entry>) {
    WellNamed(bundle) && multiset(FlatAll([], bundle)) == multiset(Fixed(text, database)) + multiset(written)
  }

  /** The hash function prints 64 lower-case digits. */
  ghost predicate Hashes(H: Hasher) { forall c: Content :: HexHash(H(c)) }

  // ----- The copied entries -----

  predicate UnderArtifacts(path: Path) {
    2 <= |path| <= MAX_NESTING_DEPTH && path[0] == ARTIFACTS && AllPlain(path)
  }

  lemma WrittenPaths(source: seq<Child>, written: seq<Entry>)
    requires CopyWrote(source, written)
    ensures forall e :: e in written ==> UnderArtifacts(e.path) && e.kind != Odd
    ensures FilesPrintable(written) && OnePerPath(written)
    ensures |written| <= MAX_BACKUP_FILES
  {
    var es := FlatAll([ARTIFACTS], source);
    SameMultisetSameMembers(written, es);
    forall e | e in written ensures UnderArtifacts(e.path) {
      EntriesAreBelow([ARTIFACTS], source, e);
      ArtifactsIsPlain();
      assert e.path == [ARTIFACTS] + e.path[1..];
    }
    ListedOnce([ARTIFACTS], source);
    DistinctByPermutation((e: Entry) => e.path, es, written);
  }

  lemma ArtifactsIsPlain()
    ensures Plain(ARTIFACTS)
  {
    assert |ARTIFACTS| == 9;
  }

  lemma SplitOfPath(path: Path)
    requires UnderArtifacts(path)
    ensures Split(Join(path)) == path
  {
    SplitJoin(path);
  }

  // ----- The manifest of the copy -----

  lemma {:induction false} DescribedFiles(H: Hasher, es: seq<Entry>)
    ensures forall e :: e in es && e.kind.FileWith? ==> DescribeFile(H, e.path, e.kind.content) in BackupFiles(H, es)
  {
    if es != [] {
      var before := es[..|es| - 1];
      DescribedFiles(H, before);
      assert forall e :: e in es ==> e in before || e == es[|es| - 1];
    }
  }

  lemma {:induction false} DescribedFrom(H: Hasher, es: seq<Entry>, f: BackupFile) returns (e: Entry)
    requires f in BackupFiles(H, es)
    ensures e in es && e.kind.FileWith? && f == DescribeFile(H, e.path, e.kind.content)
  {
    var before, last := es[..|es| - 1], es[|es| - 1];
    if f in BackupFiles(H, before) {
      e := DescribedFrom(H, before, f);
    } else {
      e := last;
    }
  }

  lemma ArtifactsOf(H: Hasher, database: Content, written: seq<Entry>)
    ensures
      var artifacts := ManifestFor(H, database, BackupFiles(H, written)).artifacts;
      && (forall f :: f in artifacts <==> f in BackupFiles(H, written)) && |artifacts| <= |written|
      && multiset(artifacts) == multiset(BackupFiles(H, written))
  {
    var fs := BackupFiles(H, written);
    SortPermutes(FileOrder(), fs);
    SameMultisetSameMembers(fs, Sort(FileOrder(), fs));
  }

  // ----- The bundle's entries -----

  lemma BundleEntries(bundle: seq<Child>, text: Content, database: Content, written: seq<Entry>)
    requires BundleHolds(bundle, text, database, written)
    ensures |FlatAll([], bundle)| == |written| + BACKUP_FIXED_ENTRY_COUNT
    ensures forall e :: e in FlatAll([], bundle) <==> e in Fixed(text, database) || e in written
  {
    TotalSize(FlatAll([], bundle), Fixed(text, database), written);
  }

  lemma {:induction false} FewFilePaths(es: seq<Entry>)
    ensures |FilePaths(es)| <= |es|
  {
    if es == [] {
      assert FilePaths(es) == {};
    } else {
      var before, last := es[..|es| - 1], es[|es| - 1];
      FewFilePaths(before);
      assert es == before + [last];
      assert FilePaths(es) == FilePaths(before) + if last.kind.FileWith? then {Join(last.path)} else {};
    }
  }

  lemma ShortNameIsPrintable(name: string)
    requires 0 < |name| <= MAX_PATH_BYTES
    ensures Printable([name])
  {
  }

  lemma FixedEntries(text: Content, database: Content)
    ensures forall e :: e in Fixed(text, database) ==> Printable(e.path) && |e.path| == 1 && e.kind != Odd
  {
    ShortNameIsPrintable(MANIFEST_FILE);
    ShortNameIsPrintable(DATABASE_FILE);
    ShortNameIsPrintable(ARTIFACTS);
  }

  lemma TwoMore<T>(a: T, b: T, s: set<T>)
    ensures |{a, b} + s| <= |s| + 2
  {
    assert {a, b} + s == s + ({a, b} - s);
    assert {a, b} - s <= {a, b} && {a, b} == {a} + ({b} - {a});
    SubsetIsNoLarger({a, b} - s, {a, b});
  }

  lemma BundleFilePaths(bundle: seq<Child>, text: Content, database: Content, written: seq<Entry>)
    requires BundleHolds(bundle, text, database, written)
    ensures FilePaths(FlatAll([], bundle)) == {MANIFEST_FILE, DATABASE_FILE} + FilePaths(written)
  {
    BundleEntries(bundle, text, database, written);
    var all, fixed := FlatAll([], bundle), Fixed(text, database);
    assert Join(fixed[0].path) == MANIFEST_FILE && Join(fixed[1].path) == DATABASE_FILE;
    forall p ensures p in FilePaths(all) <==> p in {MANIFEST_FILE, DATABASE_FILE} + FilePaths(written) {
      if p in FilePaths(all) {
        var e :| e in all && e.kind.FileWith? && Join(e.path) == p;
        assert e in written || e == fixed[0] || e == fixed[1];
      }
      if p in FilePaths(written) {
        var e :| e in written && e.kind.FileWith? && Join(e.path) == p;
        assert e in all;
      }
      assert fixed[0] in all && fixed[1] in all;
    }
  }

  lemma BundleWalkable(source: seq<Child>, written: seq<Entry>, bundle: seq<Child>, text: Content, database: Content)
    requires CopyWrote(source, written) && BundleHolds(bundle, text, database, written)
    ensures Walkable(FlatAll([], bundle), MAX_BACKUP_ENTRIES, MAX_NESTING_DEPTH)
    ensures AllPrintable(FlatAll([], bundle)) <==> AllPrintable(written)
  {
    WrittenPaths(source, written);
    BundleEntries(bundle, text, database, written);
    FixedEntries(text, database);
  }

  lemma BundleHasFewFiles(source: seq<Child>, written: seq<Entry>, bundle: seq<Child>, text: Content, database: Content)
    requires CopyWrote(source, written) && BundleHolds(bundle, text, database, written)
    ensures |FilePaths(FlatAll([], bundle))| <= MAX_BACKUP_FILES + 2
  {
    WrittenPaths(source, written);
    BundleFilePaths(bundle, text, database, written);
    FewFilePaths(written);
    TwoMore(MANIFEST_FILE, DATABASE_FILE, FilePaths(written));
  }

  /** The two budgets line up: the bundle's walk accepts what the copy accepted unless a
    * directory's path is too long to print. */
  lemma WalksAgree(source: seq<Child>, written: seq<Entry>, bundle: seq<Child>, text: Content, database: Content)
    requires CopyWrote(source, written) && BundleHolds(bundle, text, database, written)
    ensures InventoryAccepts(FlatAll([], bundle)) <==> AllPrintable(written)
  {
    BundleWalkable(source, written, bundle, text, database);
    BundleHasFewFiles(source, written, bundle, text, database);
  }

  // ----- The inventory matches -----

  lemma {:induction false} ExpectedFilesAre(fs: seq<BackupFile>, p: string)
    ensures p in ExpectedFiles(fs) <==> p in {MANIFEST_FILE, DATABASE_FILE} || exists f :: f in fs && f.path == p
  {
    if fs != [] {
      var before, last := fs[..|fs| - 1], fs[|fs| - 1];
      ExpectedFilesAre(before, p);
      assert fs == before + [last];
      assert last in fs && forall f :: f in fs <==> f in before || f == last;
    }
  }

  lemma FilesAgree(H: Hasher, source: seq<Child>, written: seq<Entry>, bundle: seq<Child>, text: Content,
          database: Content)
    requires CopyWrote(source, written) && BundleHolds(bundle, text, database, written)
    ensures FilePaths(FlatAll([], bundle)) == ExpectedFiles(ManifestFor(H, database, BackupFiles(H, written)).artifacts)
  {
    var fs := ManifestFor(H, database, BackupFiles(H, written)).artifacts;
    ArtifactsOf(H, database, written);
    DescribedFiles(H, written);
    BundleFilePaths(bundle, text, database, written);
    forall p ensures p in FilePaths(FlatAll([], bundle)) <==> p in ExpectedFiles(fs) {
      ExpectedFilesAre(fs, p);
      if p in FilePaths(written) {
        var e :| e in written && e.kind.FileWith? && Join(e.path) == p;
        assert DescribeFile(H, e.path, e.kind.content) in fs;
      }
      if f :| f in fs && f.path == p {
        var e := DescribedFrom(H, written, f);
        assert e in written;
      }
    }
  }

  lemma {:induction false} ParentsAre(names: Path, p: string) returns (k: nat)
    requires p in ParentsOf(names)
    ensures 0 < k < |names| && p == Join(names[..k])
  {
    if p == Join(names[..|names| - 1]) {
      k := |names| - 1;
    } else {
      k := ParentsAre(names[..|names| - 1], p);
      assert names[..|names| - 1][..k] == names[..k];
    }
  }

  lemma {:induction false} ExpectedFoldersAre(fs: seq<BackupFile>, p: string) returns (f: BackupFile)
    requires p in ExpectedFolders(fs) && p != ARTIFACTS
    ensures f in fs && p in ParentsOf(Split(f.path))
  {
    var before, last := fs[..|fs| - 1], fs[|fs| - 1];
    if p in ExpectedFolders(before) {
      f := ExpectedFoldersAre(before, p);
    } else {
      f := last;
    }
  }

  /** Each parent of a copied entry is a directory of the bundle. */
  lemma ParentIsFolder(source: seq<Child>, written: seq<Entry>, bundle: seq<Child>, text: Content,
          database: Content, e: Entry, k: nat)
    requires CopyWrote(source, written) && BundleHolds(bundle, text, database, written)
    requires e in written && 0 < k < |e.path|
    ensures Entry(e.path[..k], Folder) in FlatAll([], bundle)
  {
    WrittenPaths(source, written);
    BundleEntries(bundle, text, database, written);
    if k == 1 {
      assert e.path[..1] == [ARTIFACTS];
      assert Fixed(text, database)[2] == Entry(e.path[..1], Folder);
    } else {
      SameMultisetSameMembers(written, FlatAll([ARTIFACTS], source));
      ParentsAreFolders([ARTIFACTS], source, e, k);
    }
  }

  lemma FoldersAgree(H: Hasher, source: seq<Child>, written: seq<Entry>, bundle: seq<Child>, text: Content,
          database: Content)
    requires CopyWrote(source, written) && BundleHolds(bundle, text, database, written)
    ensures ExpectedFolders(ManifestFor(H, database, BackupFiles(H, written)).artifacts) <= FolderPaths(FlatAll([], bundle))
  {
    var fs, all := ManifestFor(H, database, BackupFiles(H, written)).artifacts, FlatAll([], bundle);
    ArtifactsOf(H, database, written);
    WrittenPaths(source, written);
    BundleEntries(bundle, text, database, written);
    forall p | p in ExpectedFolders(fs) ensures p in FolderPaths(all) {
      if p == ARTIFACTS {
        var e := Fixed(text, database)[2];
        assert e in all && e.kind.Folder? && Join(e.path) == p;
      } else {
        var f := ExpectedFoldersAre(fs, p);
        var e := DescribedFrom(H, written, f);
        SplitOfPath(e.path);
        var k := ParentsAre(e.path, p);
        ParentIsFolder(source, written, bundle, text, database, e, k);
      }
    }
  }

  // ----- The manifest is valid -----

  predicate FilesWithoutBackslash(es: seq<Entry>) {
    forall e :: e in es && e.kind.FileWith? ==> NoBackslash(e.path)
  }

  lemma ArtifactPathOf(path: Path)
    requires UnderArtifacts(path) && Printable(path)
    ensures ArtifactPath(Join(path)) <==> NoBackslash(path)
  {
    ParseAfterPrintExactlyWhen(path);
  }

  lemma AllValidExactlyWhen(H: Hasher, source: seq<Child>, written: seq<Entry>, fs: seq<BackupFile>)
    requires Hashes(H) && CopyWrote(source, written) && forall f :: f in fs <==> f in BackupFiles(H, written)
    ensures AllValid(fs) <==> FilesWithoutBackslash(written)
  {
    WrittenPaths(source, written);
    DescribedFiles(H, written);
    if FilesWithoutBackslash(written) {
      forall i | 0 <= i < |fs| ensures ArtifactPath(fs[i].path) && HexHash(fs[i].blake3) {
        assert fs[i] in fs;
        var e := DescribedFrom(H, written, fs[i]);
        ArtifactPathOf(e.path);
      }
    }
    if AllValid(fs) {
      forall e | e in written && e.kind.FileWith? ensures NoBackslash(e.path) {
        assert DescribeFile(H, e.path, e.kind.content) in fs;
        ArtifactPathOf(e.path);
      }
    }
  }

  lemma FileOrderIsTotal()
    ensures TotalPreorder(FileOrder())
  {
    StringOrderIsTotal();
    var le := StringOrder();
    forall a, b ensures FileOrder()(a, b) || FileOrder()(b, a) {
      assert le(a.path, b.path) || le(b.path, a.path);
    }
    forall a, b, c | FileOrder()(a, b) && FileOrder()(b, c) ensures FileOrder()(a, c) {
      assert le(a.path, b.path) && le(b.path, c.path);
    }
  }

  predicate DistinctFilePaths(fs: seq<BackupFile>) {
    forall i, j :: 0 <= i < j < |fs| ==> fs[i].path != fs[j].path
  }

  /** Entries at different paths are recorded under different strings. */
  lemma {:induction false} RecordedOnce(H: Hasher, es: seq<Entry>)
    requires OnePerPath(es) && forall e :: e in es ==> UnderArtifacts(e.path)
    ensures DistinctFilePaths(BackupFiles(H, es))
  {
    if es != [] {
      var before, last := es[..|es| - 1], es[|es| - 1];
      RecordedOnce(H, before);
      var fs := BackupFiles(H, before);
      forall i | 0 <= i < |fs| ensures fs[i].path != Join(last.path) {
        var e := DescribedFrom(H, before, fs[i]);
        SplitOfPath(e.path);
        SplitOfPath(last.path);
      }
    }
  }

  lemma SortedIsIncreasing(H: Hasher, source: seq<Child>, database: Content, written: seq<Entry>)
    requires CopyWrote(source, written)
    ensures Increasing(ManifestFor(H, database, BackupFiles(H, written)).artifacts)
  {
    var files := BackupFiles(H, written);
    var fs := Sort(FileOrder(), files);
    WrittenPaths(source, written);
    RecordedOnce(H, written);
    SortPermutes(FileOrder(), files);
    DistinctByPermutation((f: BackupFile) => f.path, files, fs);
    FileOrderIsTotal();
    SortSorts(FileOrder(), files);
    StringOrderIsTotal();
    forall i, j | 0 <= i < j < |fs| ensures Before(fs[i].path, fs[j].path) {
      assert FileOrder()(fs[i], fs[j]);
      assert fs[i].path != fs[j].path;
    }
  }

  lemma ManifestValidExactlyWhen(H: Hasher, source: seq<Child>, database: Content, written: seq<Entry>)
    requires Hashes(H) && CopyWrote(source, written)
    ensures ManifestValid(ManifestFor(H, database, BackupFiles(H, written))) <==> FilesWithoutBackslash(written)
  {
    var m := ManifestFor(H, database, BackupFiles(H, written));
    WrittenPaths(source, written);
    ArtifactsOf(H, database, written);
    AllValidExactlyWhen(H, source, written, m.artifacts);
    SortedIsIncreasing(H, source, database, written);
  }

  // ----- The files match -----

  lemma TopFileMatches(H: Hasher, bundle: seq<Child>, name: string, content: Content)
    requires WellNamed(bundle) && Entry([name], FileWith(content)) in FlatAll([], bundle) && '/' !in name
    ensures FileMatches(H, bundle, DescribeFile(H, [name], content))
  {
    SplitPlain(name);
    assert [] + [name] == [name];
    EntryIsFound([], bundle, [name], content);
  }

  lemma DatabaseMatches(H: Hasher, bundle: seq<Child>, text: Content, database: Content, written: seq<Entry>)
    requires BundleHolds(bundle, text, database, written)
    ensures FileMatches(H, bundle, DescribeFile(H, [DATABASE_FILE], database))
  {
    BundleEntries(bundle, text, database, written);
    DatabaseFileLetters();
    assert Fixed(text, database)[1] in FlatAll([], bundle);
    TopFileMatches(H, bundle, DATABASE_FILE, database);
  }

  lemma WrittenFileMatches(H: Hasher, bundle: seq<Child>, text: Content, database: Content, written: seq<Entry>, e: Entry)
    requires BundleHolds(bundle, text, database, written)
    requires e in written && e.kind.FileWith? && UnderArtifacts(e.path)
    ensures FileMatches(H, bundle, DescribeFile(H, e.path, e.kind.content))
  {
    BundleEntries(bundle, text, database, written);
    SplitOfPath(e.path);
    assert [] + e.path == e.path;
    EntryIsFound([], bundle, e.path, e.kind.content);
  }

  lemma FilesMatch(H: Hasher, source: seq<Child>, written: seq<Entry>, bundle: seq<Child>, text: Content,
          database: Content)
    requires CopyWrote(source, written) && BundleHolds(bundle, text, database, written)
    ensures
      var m := ManifestFor(H, database, BackupFiles(H, written));
      FileMatches(H, bundle, m.database) && AllMatch(H, bundle, m.artifacts)
  {
    var m := ManifestFor(H, database, BackupFiles(H, written));
    DatabaseMatches(H, bundle, text, database, written);
    WrittenPaths(source, written);
    ArtifactsOf(H, database, written);
    forall i | 0 <= i < |m.artifacts| ensures FileMatches(H, bundle, m.artifacts[i]) {
      assert m.artifacts[i] in m.artifacts;
      var e := DescribedFrom(H, written, m.artifacts[i]);
      WrittenFileMatches(H, bundle, text, database, written, e);
    }
  }

  // ----- Main results -----

  /** Directories of printable path, files without a backslash in theirs. */
  predicate PathsSurvive(es: seq<Entry>) {
    forall e :: e in es ==> if e.kind.Folder? then Printable(e.path) else NoBackslash(e.path)
  }

  /** A copy that the limits accept verifies exactly when no file's path holds a backslash
    * and every directory's path is short enough to print. */
  lemma CopyVerifiesExactlyWhen(H: Hasher, source: seq<Child>, written: seq<Entry>, bundle: seq<Child>,
          text: Content, database: Content)
    requires Hashes(H) && CopyWrote(source, written) && BundleHolds(bundle, text, database, written)
    ensures Verifies(H, bundle, ManifestFor(H, database, BackupFiles(H, written)))
      <==> PathsSurvive(FlatAll([ARTIFACTS], source))
  {
    var es := FlatAll([ARTIFACTS], source);
    SameMultisetSameMembers(written, es);
    WrittenPaths(source, written);
    WalksAgree(source, written, bundle, text, database);
    FilesAgree(H, source, written, bundle, text, database);
    FoldersAgree(H, source, written, bundle, text, database);
    ManifestValidExactlyWhen(H, source, database, written);
    FilesMatch(H, source, written, bundle, text, database);
    FileAndFolderPaths(written, es);
  }

  lemma FileAndFolderPaths(written: seq<Entry>, es: seq<Entry>)
    requires forall e :: e in written <==> e in es
    requires FilesPrintable(written) && forall e :: e in written ==> e.kind != Odd
    ensures AllPrintable(written) && FilesWithoutBackslash(written) <==> PathsSurvive(es)
  {
  }

  /** The file now at a path of the bundle is not another one of the same hash and size. */
  ghost predicate NoCollision(H: Hasher, original: Content, bundle: seq<Child>, path: Path) {
    var found := Find(bundle, path);
    found.Some? && H(found.value) == H(original) && |found.value| == |original| ==> found == Some(original)
  }

  /** No file of the copy has been replaced by another of the same hash and size. */
  ghost predicate NoCollisions(H: Hasher, database: Content, written: seq<Entry>, bundle: seq<Child>) {
    && NoCollision(H, database, bundle, [DATABASE_FILE])
    && forall e :: e in written && e.kind.FileWith? ==> NoCollision(H, e.kind.content, bundle, e.path)
  }

  /** The home a backup should bring back: the database and every artifact file of the
    * source under its path; directories that hold no file are not in it. */
  ghost predicate IsHomeOf(source: seq<Child>, database: Content, stage: map<string, Content>) {
    var es := FlatAll([ARTIFACTS], source);
    && stage.Keys == {RESTORED_DATABASE_FILE} + FilePaths(es)
    && stage[RESTORED_DATABASE_FILE] == database
    && forall e :: e in es && e.kind.FileWith? ==> stage[Join(e.path)] == e.kind.content
  }

  lemma {:induction false} StagePathsAre(fs: seq<BackupFile>, p: string)
    ensures p in StagePaths(fs) <==> p == RESTORED_DATABASE_FILE || exists f :: f in fs && f.path == p
  {
    if fs != [] {
      var before, last := fs[..|fs| - 1], fs[|fs| - 1];
      StagePathsAre(before, p);
      assert fs == before + [last];
      assert last in fs && forall f :: f in fs <==> f in before || f == last;
    }
  }

  lemma StageHasTheSourcePaths(H: Hasher, source: seq<Child>, database: Content, written: seq<Entry>)
    requires CopyWrote(source, written)
    ensures StagePaths(ManifestFor(H, database, BackupFiles(H, written)).artifacts)
      == {RESTORED_DATABASE_FILE} + FilePaths(FlatAll([ARTIFACTS], source))
  {
    var fs, es := ManifestFor(H, database, BackupFiles(H, written)).artifacts, FlatAll([ARTIFACTS], source);
    SameMultisetSameMembers(written, es);
    ArtifactsOf(H, database, written);
    DescribedFiles(H, written);
    forall p ensures p in StagePaths(fs) <==> p == RESTORED_DATABASE_FILE || p in FilePaths(es) {
      StagePathsAre(fs, p);
      if p in FilePaths(es) {
        var e :| e in es && e.kind.FileWith? && Join(e.path) == p;
        assert DescribeFile(H, e.path, e.kind.content) in fs;
      }
      if f :| f in fs && f.path == p {
        var e := DescribedFrom(H, written, f);
        assert e in es;
      }
    }
  }

  /** Whatever happened to the files of the bundle since, its manifest aside: a restore that
    * the checks let through gives back the database and the source's artifact files, and
    * nothing else. */
  lemma RestoreGivesBackTheSource(
    H: Hasher, source: seq<Child>, database: Content, written: seq<Entry>, later: seq<Child>, stage: map<string, Content>)
    requires CopyWrote(source, written)
    requires var m := ManifestFor(H, database, BackupFiles(H, written));
      IsHome(later, m, stage) && FileMatches(H, later, m.database) && AllMatch(H, later, m.artifacts)
    requires NoCollisions(H, database, written, later)
    ensures IsHomeOf(source, database, stage)
  {
    var m, es := ManifestFor(H, database, BackupFiles(H, written)), FlatAll([ARTIFACTS], source);
    SameMultisetSameMembers(written, es);
    StageHasTheSourcePaths(H, source, database, written);
    DatabaseFileLetters();
    SplitPlain(DATABASE_FILE);
    assert CopiedTo(later, m.database, stage, RESTORED_DATABASE_FILE);
    forall e | e in es && e.kind.FileWith? ensures Join(e.path) in stage && stage[Join(e.path)] == e.kind.content {
      RestoredFile(H, source, database, written, later, stage, e);
    }
  }

  lemma RestoredFile(H: Hasher, source: seq<Child>, database: Content, written: seq<Entry>, later: seq<Child>,
          stage: map<string, Content>, e: Entry)
    requires CopyWrote(source, written)
    requires var m := ManifestFor(H, database, BackupFiles(H, written));
      AllCopied(later, m.artifacts, stage) && AllMatch(H, later, m.artifacts)
    requires e in written && e.kind.FileWith? && NoCollision(H, e.kind.content, later, e.path)
    ensures Join(e.path) in stage && stage[Join(e.path)] == e.kind.content
  {
    var m := ManifestFor(H, database, BackupFiles(H, written));
    WrittenPaths(source, written);
    ArtifactsOf(H, database, written);
    DescribedFiles(H, written);
    SplitOfPath(e.path);
    var f := DescribeFile(H, e.path, e.kind.content);
    assert f in m.artifacts;
    var i := Position(m.artifacts, f);
    assert FileMatches(H, later, m.artifacts[i]) && CopiedTo(later, m.artifacts[i], stage, f.path);
  }

  /** In a bundle nobody touched every file is the one that was copied, whatever the hash. */
  lemma UntouchedFiles(H: Hasher, source: seq<Child>, written: seq<Entry>, bundle: seq<Child>, text: Content,
          database: Content)
    requires CopyWrote(source, written) && BundleHolds(bundle, text, database, written)
    ensures NoCollisions(H, database, written, bundle)
  {
    BundleEntries(bundle, text, database, written);
    WrittenPaths(source, written);
    assert Fixed(text, database)[1] in FlatAll([], bundle) && [] + [DATABASE_FILE] == [DATABASE_FILE];
    EntryIsFound([], bundle, [DATABASE_FILE], database);
    forall e | e in written && e.kind.FileWith? ensures NoCollision(H, e.kind.content, bundle, e.path) {
      assert [] + e.path == e.path;
      EntryIsFound([], bundle, e.path, e.kind.content);
    }
  }

  /** The plain round trip: a home restored from a bundle nobody touched is the source's. */
  lemma UntouchedBundleGivesBackTheSource(H: Hasher, source: seq<Child>, written: seq<Entry>, bundle: seq<Child>,
          text: Content, database: Content, stage: map<string, Content>)
    requires CopyWrote(source, written) && BundleHolds(bundle, text, database, written)
    requires IsHome(bundle, ManifestFor(H, database, BackupFiles(H, written)), stage)
    ensures IsHomeOf(source, database, stage)
  {
    UntouchedFiles(H, source, written, bundle, text, database);
    FilesMatch(H, source, written, bundle, text, database);
    RestoreGivesBackTheSource(H, source, database, written, bundle, stage);
  }

  /** What a printed path of a listed file says is its path. */
  lemma FileAtPrintedPath(source: seq<Child>, names: Path, e: Entry)
    requires WellNamed(source) && names != [] && AllPlain(names)
    requires e in FlatAll([ARTIFACTS], source) && e.kind.FileWith? && Join(e.path) == Join([ARTIFACTS] + names)
    ensures Find(source, names) == Some(e.kind.content)
  {
    ArtifactsIsPlain();
    EntriesAreBelow([ARTIFACTS], source, e);
    assert e.path == [ARTIFACTS] + e.path[1..];
    SplitJoin(e.path);
    SplitJoin([ARTIFACTS] + names);
    EntryIsFound([ARTIFACTS], source, names, e.kind.content);
  }

  lemma NotTheDatabase(names: Path)
    requires names != [] && AllPlain(names)
    ensures Join([ARTIFACTS] + names) != RESTORED_DATABASE_FILE
  {
    ArtifactsIsPlain();
    SplitJoin([ARTIFACTS] + names);
    RestoredLetters();
    SplitPlain(RESTORED_DATABASE_FILE);
  }

  /** The restored home answers every path below `artifacts` as the source tree does. */
  lemma HomeReadsLikeTheSource(source: seq<Child>, database: Content, stage: map<string, Content>, names: Path)
    requires WellNamed(source) && IsHomeOf(source, database, stage) && names != [] && AllPlain(names)
    ensures
      var p := Join([ARTIFACTS] + names);
      Find(source, names) == if p in stage then Some(stage[p]) else None
  {
    var es, p := FlatAll([ARTIFACTS], source), Join([ARTIFACTS] + names);
    if Find(source, names).Some? {
      FoundIsEntry([ARTIFACTS], source, names);
      var e := Entry([ARTIFACTS] + names, FileWith(Find(source, names).value));
      assert e in es && stage[Join(e.path)] == e.kind.content;
    } else if p in stage {
      NotTheDatabase(names);
      assert p in FilePaths(es);
      var e :| e in es && e.kind.FileWith? && Join(e.path) == p;
      FileAtPrintedPath(source, names, e);
      assert false;
    }
  }

  // ----- Creating, then restoring -----

  /** The bundle a copy of `source` leaves, one of the trees that hold what it wrote. */
  function BundleOf(text: Content, database: Content, source: seq<Child>): seq<Child> {
    [Child(MANIFEST_FILE, File(text)), Child(DATABASE_FILE, File(database)), Child(ARTIFACTS, Directory(source))]
  }

  lemma FixedNames()
    ensures Plain(MANIFEST_FILE) && Plain(DATABASE_FILE) && Plain(ARTIFACTS)
    ensures MANIFEST_FILE != DATABASE_FILE && MANIFEST_FILE != ARTIFACTS && DATABASE_FILE != ARTIFACTS
  {
    assert |MANIFEST_FILE| == 13 && |DATABASE_FILE| == 16 && |ARTIFACTS| == 9;
  }

  lemma FlatFile(dir: Path, name: string, content: Content, cs: seq<Child>)
    ensures FlatAll(dir, [Child(name, File(content))] + cs)
      == [Entry(dir + [name], FileWith(content))] + FlatAll(dir, cs)
  {
    assert ([Child(name, File(content))] + cs)[1..] == cs;
  }

  lemma FlatFolder(dir: Path, name: string, children: seq<Child>)
    ensures FlatAll(dir, [Child(name, Directory(children))])
      == [Entry(dir + [name], Folder)] + FlatAll(dir + [name], children)
  {
    assert [Child(name, Directory(children))][1..] == [];
  }

  lemma FlatOfBundle(text: Content, database: Content, source: seq<Child>)
    ensures FlatAll([], BundleOf(text, database, source)) == Fixed(text, database) + FlatAll([ARTIFACTS], source)
  {
    var folder := [Child(ARTIFACTS, Directory(source))];
    var rest := [Child(DATABASE_FILE, File(database))] + folder;
    assert BundleOf(text, database, source) == [Child(MANIFEST_FILE, File(text))] + rest;
    FlatFile([], MANIFEST_FILE, text, rest);
    FlatFile([], DATABASE_FILE, database, folder);
    FlatFolder([], ARTIFACTS, source);
    assert forall name: string :: [] + [name] == [name];
  }

  lemma BundleOfHolds(text: Content, database: Content, source: seq<Child>)
    requires WellNamed(source)
    ensures BundleHolds(BundleOf(text, database, source), text, database, FlatAll([ARTIFACTS], source))
  {
    FixedNames();
    FlatOfBundle(text, database, source);
    assert WellNamed(BundleOf(text, database, source));
  }

  function BackslashSource(): seq<Child> { [Child(['a', '\\', 'b'], File([]))] }

  lemma BackslashPath()
    ensures
      var path := [ARTIFACTS, ['a', '\\', 'b']];
      && FlatAll([ARTIFACTS], BackslashSource()) == [Entry(path, FileWith([]))]
      && Printable(path) && !NoBackslash(path)
  {
    var name := ['a', '\\', 'b'];
    var path := [ARTIFACTS, name];
    assert BackslashSource() == [Child(name, File([]))] + [];
    FlatFile([ARTIFACTS], name, [], []);
    assert [ARTIFACTS] + [name] == path && path[1..] == [name];
    assert Join(path) == ARTIFACTS + "/" + name;
    assert '\\' in path[1];
  }

  /** The copy accepts this tree and the verification of what it wrote does not. */
  lemma CopiedBackslashDoesNotVerify(H: Hasher, text: Content, database: Content)
    requires Hashes(H)
    ensures
      var source := BackslashSource();
      var written := FlatAll([ARTIFACTS], source);
      var bundle := BundleOf(text, database, source);
      && CopyWrote(source, written) && BundleHolds(bundle, text, database, written)
      && !Verifies(H, bundle, ManifestFor(H, database, BackupFiles(H, written)))
  {
    var source := BackslashSource();
    var written := FlatAll([ARTIFACTS], source);
    BackslashPath();
    BundleOfHolds(text, database, source);
    assert CopyWrote(source, written);
    CopyVerifiesExactlyWhen(H, source, written, BundleOf(text, database, source), text, database);
    assert written[0] in written;
  }

  /** The staging directory before the copy. */
  function Staging(database: Content): seq<Child> {
    [Child(ARTIFACTS, Directory([])), Child(DATABASE_FILE, File(database))]
  }

  lemma StagingLists(database: Content)
    ensures WellNamed(Staging(database))
    ensures FlatAll([], Staging(database))
      == [Entry([ARTIFACTS], Folder), Entry([DATABASE_FILE], FileWith(database))]
  {
    FixedNames();
    var file := [Child(DATABASE_FILE, File(database))];
    assert Staging(database) == [Child(ARTIFACTS, Directory([]))] + file;
    FlatSplit([], Child(ARTIFACTS, Directory([])), file);
    FlatFile([], DATABASE_FILE, database, []);
    assert file == file + [];
    assert forall name: string :: [] + [name] == [name];
  }

  /** What the copy wrote can be written where it writes it, in its order. */
  lemma WrittenIsCreatable(source: seq<Child>, database: Content, written: seq<Entry>)
    requires CopyWrote(source, written) && FoldersFirst(1, written)
    ensures Creatable(FlatAll([], Staging(database)), [ARTIFACTS], written)
  {
    StagingLists(database);
    WrittenPaths(source, written);
    var there := FlatAll([], Staging(database));
    assert there[0] == Entry([ARTIFACTS], Folder);
    forall e | e in written ensures IsBelow(e.path, [ARTIFACTS]) && Free(there, e.path) {
      assert e.path[..1] == [ARTIFACTS];
    }
  }

  /** The staging directory after the copy. */
  lemma StagedTree(source: seq<Child>, database: Content, written: seq<Entry>)
    requires CopyWrote(source, written) && FoldersFirst(1, written)
    ensures PlaceAll(Staging(database), written).Some?
    ensures var staged := PlaceAll(Staging(database), written).value;
      && WellNamed(staged)
      && multiset(FlatAll([], staged)) == multiset(FlatAll([], Staging(database))) + multiset(written)
  {
    WrittenIsCreatable(source, database, written);
    StagingLists(database);
    PlaceAllSucceeds(Staging(database), [ARTIFACTS], written);
  }

  lemma NoManifestYet(source: seq<Child>, database: Content, written: seq<Entry>, listed: seq<Entry>)
    requires CopyWrote(source, written)
    requires multiset(listed) == multiset(FlatAll([], Staging(database))) + multiset(written)
    ensures Free(listed, [MANIFEST_FILE])
  {
    StagingLists(database);
    WrittenPaths(source, written);
    FixedNames();
    SameMultisetSameMembers(listed, FlatAll([], Staging(database)) + written);
  }

  /** Writing the manifest last makes it a bundle of the copy. */
  lemma ManifestCompletes(source: seq<Child>, text: Content, database: Content, written: seq<Entry>)
    requires CopyWrote(source, written) && FoldersFirst(1, written)
    ensures PlaceAll(Staging(database), written).Some?
    ensures var bundle := Place(PlaceAll(Staging(database), written).value, [MANIFEST_FILE], FileWith(text));
      bundle.Some? && BundleHolds(bundle.value, text, database, written)
  {
    StagedTree(source, database, written);
    var staged := PlaceAll(Staging(database), written).value;
    FixedNames();
    NoManifestYet(source, database, written, FlatAll([], staged));
    var e := Entry([MANIFEST_FILE], FileWith(text));
    PlaceOne(staged, e);
    AllListed(text, database, written, FlatAll([], staged), FlatAll([], Place(staged, e.path, e.kind).value));
  }

  lemma AllListed(text: Content, database: Content, written: seq<Entry>, staged: seq<Entry>, bundle: seq<Entry>)
    requires multiset(staged) == multiset(FlatAll([], Staging(database))) + multiset(written)
    requires multiset(bundle) == multiset(staged) + multiset{Entry([MANIFEST_FILE], FileWith(text))}
    ensures multiset(bundle) == multiset(Fixed(text, database)) + multiset(written)
  {
    StagingLists(database);
  }

  /** The manifest as text. */
  type Renderer = Manifest -> Content

  /** What creating a backup leaves, and the manifest in it. */
  datatype Created = Created(bundle: seq<Child>, manifest: Manifest)

  /** The artifact part of `create_backup`: copy into the staging directory, describe what was
    * copied, write the manifest, and verify what is now staged. */
  method CreateBackup(H: Hasher, render: Renderer, source: seq<Child>, database: Content) returns (r: Option<Created>)
    requires Hashes(H) && WellNamed(source)
    ensures var es := FlatAll([ARTIFACTS], source); r.Some? <==> CopyAccepts(es) && PathsSurvive(es)
    ensures r.Some? ==>
      var es, m := FlatAll([ARTIFACTS], source), r.value.manifest;
      && m == ManifestFor(H, database, BackupFiles(H, es)) && Verifies(H, r.value.bundle, m)
      && BundleHolds(r.value.bundle, render(m), database, es)
  {
    ghost var es := FlatAll([ARTIFACTS], source);
    var copied := CopyArtifactTree(H, source);
    if copied.None? {
      return None;
    }
    var written := copied.value.written;
    assert CopyWrote(source, written);
    var m := ManifestFor(H, database, copied.value.files);
    ManifestForgetsOrder(H, source, database, written, es);
    ArtifactsOf(H, database, written);
    WrittenPaths(source, written);
    // The file limit is never reached: the entry limit comes first.
    assert |m.artifacts| <= MAX_BACKUP_FILES;
    ManifestCompletes(source, render(m), database, written);
    var staged := PlaceAll(Staging(database), written).value;
    var bundle := Place(staged, [MANIFEST_FILE], FileWith(render(m))).value;
    CopyVerifiesExactlyWhen(H, source, written, bundle, render(m), database);
    var verified := VerifyBackup(H, bundle, m);
    return if verified then Some(Created(bundle, m)) else None;
  }

  /** Creating and then restoring what nobody touched: it succeeds exactly on the trees
    * the copy accepts whose paths survive, and gives back the source. */
  method CreateAndRestore(H: Hasher, render: Renderer, source: seq<Child>, database: Content)
    returns (r: Option<map<string, Content>>)
    requires Hashes(H) && WellNamed(source)
    ensures var es := FlatAll([ARTIFACTS], source); r.Some? <==> CopyAccepts(es) && PathsSurvive(es)
    ensures r.Some? ==> IsHomeOf(source, database, r.value)
  {
    var created := CreateBackup(H, render, source, database);
    if created.None? {
      return None;
    }
    var m, bundle := created.value.manifest, created.value.bundle;
    ghost var es := FlatAll([ARTIFACTS], source);
    FilesMatch(H, source, es, bundle, render(m), database);
    r := RestoreBackup(H, bundle, bundle, m);
    UntouchedBundleGivesBackTheSource(H, source, es, bundle, render(m), database, r.value);
  }

  /** The manifest does not depend on the order in which the copy met the files. */
  lemma ManifestForgetsOrder(H: Hasher, source: seq<Child>, database: Content, w1: seq<Entry>, w2: seq<Entry>)
    requires CopyWrote(source, w1) && CopyWrote(source, w2)
    ensures ManifestFor(H, database, BackupFiles(H, w1)) == ManifestFor(H, database, BackupFiles(H, w2))
  {
    BackupFilesPermutation(H, w1, w2);
    WrittenPaths(source, w1);
    RecordedOnce(H, w1);
    FileOrderIsTotal();
    StringOrderIsTotal();
    var fs := BackupFiles(H, w1);
    forall x, y | x in fs && y in fs && FileOrder()(x, y) && FileOrder()(y, x) ensures x == y {
      assert StringOrder()(x.path, y.path) && StringOrder()(y.path, x.path);
      var i, j := Position(fs, x), Position(fs, y);
      assert i == j || i < j || j < i;
    }
    SortForgetsOrder(FileOrder(), fs, BackupFiles(H, w2));
  }

  lemma {:induction false} BackupFilesConcat(H: Hasher, a: seq<Entry>, b: seq<Entry>)
    ensures BackupFiles(H, a + b) == BackupFiles(H, a) + BackupFiles(H, b)
  {
    if b == [] {
      assert a + b == a;
    } else {
      assert (a + b)[..|a + b| - 1] == a + b[..|b| - 1];
      BackupFilesConcat(H, a, b[..|b| - 1]);
    }
  }

  lemma {:induction false} BackupFilesPermutation(H: Hasher, a: seq<Entry>, b: seq<Entry>)
    requires multiset(a) == multiset(b)
    ensures multiset(BackupFiles(H, a)) == multiset(BackupFiles(H, b))
    decreases |a|
  {
    SameMultisetSameMembers(a, b);
    if a == [] {
      assert b == [];
    } else {
      var e := a[0];
      var w, x := SplitAround(a, e);
      var y, z := SplitAround(b, e);
      BackupFilesPermutation(H, w + x, y + z);
      BackupFilesAround(H, w, e, x);
      BackupFilesAround(H, y, e, z);
    }
  }

  lemma BackupFilesNext(H: Hasher, x: seq<Entry>, e: Entry)
    ensures BackupFiles(H, x + [e]) == BackupFiles(H, x) + FileOf(H, e)
  {
    assert (x + [e])[..|x|] == x;
  }

  lemma BackupFilesAround(H: Hasher, x: seq<Entry>, e: Entry, y: seq<Entry>)
    ensures multiset(BackupFiles(H, x + [e] + y)) == multiset(FileOf(H, e)) + multiset(BackupFiles(H, x + y))
  {
    BackupFilesConcat(H, x + [e], y);
    BackupFilesNext(H, x, e);
    BackupFilesConcat(H, x, y);
    MoveToFront(BackupFiles(H, x), FileOf(H, e), BackupFiles(H, y));
  }
}
