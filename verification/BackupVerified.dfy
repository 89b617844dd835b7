/** What a verified bundle is, said of its files and directories alone. */
module BackupVerified {
  import opened Orders
  import opened ManifestPath
  import opened Paths
  import opened BackupTree
  import opened BackupPaths
  import opened Backup
  import opened BackupBundle
  import opened BackupRoundTrip
  import opened Wrappers

  // ----- A manifest in order -----

  predicate LowerHex(s: string) {
    |s| == 64 && forall i :: 0 <= i < |s| ==> s[i] in "0123456789abcdef"
  }

  predicate FileName(name: string) { name != "" && name != "." && name != ".." && '/' !in name }

  /** `names` are the pieces of a path that may stand in a manifest. */
  predicate Listable(path: string, names: Path) {
    && names != [] && Join(names) == path && names[0] == "artifacts" && |names| <= 64
    && |path| <= 4096 && '\\' !in path && forall i :: 0 <= i < |names| ==> FileName(names[i])
  }

  ghost predicate InOrder(m: Manifest) {
    && m.database.path == "database.sqlite3" && LowerHex(m.database.blake3) && |m.artifacts| <= 100_000
    && (forall f :: f in m.artifacts ==> LowerHex(f.blake3) && exists names :: Listable(f.path, names))
    && forall i, j :: 0 <= i < j < |m.artifacts| ==>
         StringBefore(m.artifacts[i].path, m.artifacts[j].path) && m.artifacts[i].path != m.artifacts[j].path
  }

  lemma Literals()
    ensures DATABASE_FILE == "database.sqlite3" && MANIFEST_FILE == "manifest.json" && ARTIFACTS == "artifacts"
    ensures RESTORED_DATABASE_FILE == "hardknock.db"
  {
  }

  lemma HexMeans(s: string)
    ensures HexHash(s) <==> LowerHex(s)
  {
    forall i | 0 <= i < |s| ensures HexDigit(s[i]) <==> s[i] in "0123456789abcdef" {
      HexDigitMeans(s[i]);
    }
  }

  lemma HexDigitMeans(c: char)
    ensures HexDigit(c) <==> c in "0123456789abcdef"
  {
    assert "0123456789abcdef" == "01234567" + "89abcdef";
    assert c in "01234567" <==> '0' <= c <= '7';
    assert c in "89abcdef" <==> c == '8' || c == '9' || 'a' <= c <= 'f';
  }

  lemma ListableMeans(path: string, names: Path)
    ensures Listable(path, names) <==> ArtifactPath(path) && names == Split(path)
  {
    Literals();
    if Listable(path, names) {
      SplitJoin(names);
    }
    if ArtifactPath(path) {
      JoinSplit(path);
    }
  }

  lemma BeforeMeans(a: string, b: string)
    ensures Before(a, b) <==> StringBefore(a, b) && a != b
  {
    StringOrderIsTotal();
    StringOrderMeans(a, b);
    StringOrderMeans(b, a);
    var le := StringOrder();
    assert le(a, b) || le(b, a);
    if le(a, b) && le(b, a) {
      assert a == b;
    }
  }

  lemma OrderMeans(fs: seq<BackupFile>)
    ensures Increasing(fs) <==>
      forall i, j :: 0 <= i < j < |fs| ==> StringBefore(fs[i].path, fs[j].path) && fs[i].path != fs[j].path
  {
    forall i, j | 0 <= i < j < |fs|
      ensures Before(fs[i].path, fs[j].path) <==> StringBefore(fs[i].path, fs[j].path) && fs[i].path != fs[j].path {
      BeforeMeans(fs[i].path, fs[j].path);
    }
  }

  lemma EntriesMean(fs: seq<BackupFile>)
    ensures AllValid(fs) <==> forall f :: f in fs ==> LowerHex(f.blake3) && exists names :: Listable(f.path, names)
  {
    forall f | f in fs
      ensures ArtifactPath(f.path) && HexHash(f.blake3) <==>
        LowerHex(f.blake3) && exists names :: Listable(f.path, names) {
      HexMeans(f.blake3);
      ListableMeans(f.path, Split(f.path));
      forall names | Listable(f.path, names) ensures ArtifactPath(f.path) {
        ListableMeans(f.path, names);
      }
    }
  }

  lemma ManifestValidMeans(m: Manifest)
    ensures ManifestValid(m) <==> InOrder(m)
  {
    Literals();
    HexMeans(m.database.blake3);
    EntriesMean(m.artifacts);
    OrderMeans(m.artifacts);
  }

  // ----- The inventory -----

  /** A regular file of the bundle is printed as `p`. */
  ghost predicate HasFile(bundle: seq<Child>, p: string) {
    exists e :: e in FlatAll([], bundle) && e.kind.FileWith? && Join(e.path) == p
  }

  ghost predicate HasFolder(bundle: seq<Child>, p: string) {
    exists e :: e in FlatAll([], bundle) && e.kind.Folder? && Join(e.path) == p
  }

  ghost predicate Listed(m: Manifest, p: string) {
    p == "manifest.json" || p == "database.sqlite3" || exists f :: f in m.artifacts && f.path == p
  }

  /** The bundle's tree is within the limits, and all of it can be printed. */
  ghost predicate Bounded(bundle: seq<Child>) {
    && |FlatAll([], bundle)| <= 100_003
    && forall e :: e in FlatAll([], bundle) ==>
         e.kind != Odd && |e.path| <= 64 && Join(e.path) != "" && |Join(e.path)| <= 4096
  }

  /** The bundle holds the listed files and no others, and the directories they need. */
  ghost predicate HoldsExactly(bundle: seq<Child>, m: Manifest) {
    && (forall p :: HasFile(bundle, p) <==> Listed(m, p))
    && HasFolder(bundle, "artifacts")
    && forall f, names, k: nat :: f in m.artifacts && Listable(f.path, names) && 0 < k < |names| ==>
         HasFolder(bundle, Join(names[..k]))
  }

  lemma {:induction false} FewExpected(fs: seq<BackupFile>)
    ensures |ExpectedFiles(fs)| <= 2 + |fs|
  {
    if fs == [] {
      TwoMore(MANIFEST_FILE, DATABASE_FILE, {});
      assert {MANIFEST_FILE, DATABASE_FILE} + {} == ExpectedFiles(fs);
    } else {
      FewExpected(fs[..|fs| - 1]);
    }
  }

  lemma FilesMean(bundle: seq<Child>, m: Manifest)
    ensures FilePaths(FlatAll([], bundle)) == ExpectedFiles(m.artifacts) <==>
      forall p :: HasFile(bundle, p) <==> Listed(m, p)
  {
    Literals();
    var es := FlatAll([], bundle);
    forall p ensures p in FilePaths(es) <==> HasFile(bundle, p) {
    }
    forall p ensures p in ExpectedFiles(m.artifacts) <==> Listed(m, p) {
      ExpectedFilesAre(m.artifacts, p);
    }
  }

  lemma {:induction false} ParentIsExpected(names: Path, k: nat)
    requires 0 < k < |names|
    ensures Join(names[..k]) in ParentsOf(names)
  {
    var front := names[..|names| - 1];
    if k < |front| {
      ParentIsExpected(front, k);
      assert front[..k] == names[..k];
    }
  }

  lemma {:induction false} FolderIsExpected(fs: seq<BackupFile>, f: BackupFile, p: string)
    requires f in fs && p in ParentsOf(Split(f.path))
    ensures p in ExpectedFolders(fs)
  {
    var before, last := fs[..|fs| - 1], fs[|fs| - 1];
    if f != last {
      assert fs == before + [last];
      FolderIsExpected(before, f, p);
    }
  }

  lemma {:induction false} ArtifactsExpected(fs: seq<BackupFile>)
    ensures "artifacts" in ExpectedFolders(fs)
  {
    if fs == [] {
      Literals();
    } else {
      ArtifactsExpected(fs[..|fs| - 1]);
    }
  }

  lemma FoldersThere(bundle: seq<Child>, m: Manifest)
    requires ExpectedFolders(m.artifacts) <= FolderPaths(FlatAll([], bundle))
    ensures HasFolder(bundle, "artifacts")
    ensures forall f, names, k: nat :: f in m.artifacts && Listable(f.path, names) && 0 < k < |names| ==>
      HasFolder(bundle, Join(names[..k]))
  {
    ArtifactsExpected(m.artifacts);
    assert "artifacts" in FolderPaths(FlatAll([], bundle));
    forall f, names, k: nat | f in m.artifacts && Listable(f.path, names) && 0 < k < |names|
      ensures HasFolder(bundle, Join(names[..k])) {
      ListableMeans(f.path, names);
      ParentIsExpected(names, k);
      FolderIsExpected(m.artifacts, f, Join(names[..k]));
      assert Join(names[..k]) in FolderPaths(FlatAll([], bundle));
    }
  }

  lemma FoldersExpected(bundle: seq<Child>, m: Manifest)
    requires AllValid(m.artifacts) && HoldsExactly(bundle, m)
    ensures ExpectedFolders(m.artifacts) <= FolderPaths(FlatAll([], bundle))
  {
    Literals();
    forall p | p in ExpectedFolders(m.artifacts) ensures p in FolderPaths(FlatAll([], bundle)) {
      if p != ARTIFACTS {
        var f := ExpectedFoldersAre(m.artifacts, p);
        var names := Split(f.path);
        var k := ParentsAre(names, p);
        ListableMeans(f.path, names);
      }
      assert HasFolder(bundle, p);
    }
  }

  lemma BoundedMeans(bundle: seq<Child>)
    ensures Bounded(bundle) <==>
      Walkable(FlatAll([], bundle), MAX_BACKUP_ENTRIES, MAX_NESTING_DEPTH) && AllPrintable(FlatAll([], bundle))
  {
    var es := FlatAll([], bundle);
    if Walkable(es, MAX_BACKUP_ENTRIES, MAX_NESTING_DEPTH) && AllPrintable(es) {
      forall e | e in es ensures e.kind != Odd && |e.path| <= 64 && Join(e.path) != "" && |Join(e.path)| <= 4096 {
        assert Printable(e.path);
      }
    }
  }

  lemma InventoryMeans(bundle: seq<Child>, m: Manifest)
    requires ManifestValid(m)
    ensures InventoryMatches(FlatAll([], bundle), m) ==> Bounded(bundle) && HoldsExactly(bundle, m)
    ensures Bounded(bundle) && HoldsExactly(bundle, m) ==> InventoryMatches(FlatAll([], bundle), m)
  {
    FilesMean(bundle, m);
    BoundedMeans(bundle);
    if InventoryMatches(FlatAll([], bundle), m) {
      FoldersThere(bundle, m);
    }
    if Bounded(bundle) && HoldsExactly(bundle, m) {
      FewExpected(m.artifacts);
      FoldersExpected(bundle, m);
    }
  }

  // ----- The whole check -----

  /** The bundle's file at the entry's path has the entry's hash and size. */
  predicate Recorded(H: Hasher, bundle: seq<Child>, f: BackupFile) {
    exists e :: e in FlatAll([], bundle) && e.kind.FileWith? && Join(e.path) == f.path
      && H(e.kind.content) == f.blake3 && |e.kind.content| == f.bytes
  }

  lemma RecordedMeans(H: Hasher, bundle: seq<Child>, f: BackupFile)
    requires WellNamed(bundle) && f.path != ""
    ensures FileMatches(H, bundle, f) <==> Recorded(H, bundle, f)
  {
    JoinSplit(f.path);
    if FileMatches(H, bundle, f) {
      FoundIsEntry([], bundle, Split(f.path));
      assert [] + Split(f.path) == Split(f.path);
    }
    if Recorded(H, bundle, f) {
      var e :| e in FlatAll([], bundle) && e.kind.FileWith? && Join(e.path) == f.path
        && H(e.kind.content) == f.blake3 && |e.kind.content| == f.bytes;
      EntriesAreBelow([], bundle, e);
      assert e.path[0..] == e.path && [] + e.path == e.path;
      SplitJoin(e.path);
      EntryIsFound([], bundle, e.path, e.kind.content);
    }
  }

  ghost predicate AllRecorded(H: Hasher, bundle: seq<Child>, m: Manifest) {
    Recorded(H, bundle, m.database) && forall f :: f in m.artifacts ==> Recorded(H, bundle, f)
  }

  lemma FilesRecorded(H: Hasher, bundle: seq<Child>, fs: seq<BackupFile>)
    requires WellNamed(bundle) && forall i :: 0 <= i < |fs| ==> fs[i].path != ""
    ensures AllMatch(H, bundle, fs) <==> forall f :: f in fs ==> Recorded(H, bundle, f)
  {
    forall i | 0 <= i < |fs| ensures FileMatches(H, bundle, fs[i]) <==> Recorded(H, bundle, fs[i]) {
      RecordedMeans(H, bundle, fs[i]);
    }
  }

  lemma PathsAreThere(fs: seq<BackupFile>, i: nat)
    requires AllValid(fs) && i < |fs|
    ensures fs[i].path != ""
  {
    PlainNamesAreClean(fs[i].path);
  }

  lemma AllRecordedMeans(H: Hasher, bundle: seq<Child>, m: Manifest)
    requires WellNamed(bundle) && ManifestValid(m)
    ensures AllRecorded(H, bundle, m) <==> FileMatches(H, bundle, m.database) && AllMatch(H, bundle, m.artifacts)
  {
    Literals();
    RecordedMeans(H, bundle, m.database);
    forall i: nat | i < |m.artifacts| ensures m.artifacts[i].path != "" {
      PathsAreThere(m.artifacts, i);
    }
    FilesRecorded(H, bundle, m.artifacts);
  }

  /** A bundle verifies exactly when its manifest is in order, its tree is within the limits
    * and holds the listed files and no others, and each listed file is as recorded. */
  lemma VerifiesExactlyWhen(H: Hasher, bundle: seq<Child>, m: Manifest)
    requires WellNamed(bundle)
    ensures Verifies(H, bundle, m) <==>
      InOrder(m) && Bounded(bundle) && HoldsExactly(bundle, m) && AllRecorded(H, bundle, m)
  {
    ManifestValidMeans(m);
    if ManifestValid(m) {
      InventoryMeans(bundle, m);
      AllRecordedMeans(H, bundle, m);
    }
  }

  // ----- What tampering does -----

  /** Each file of a verified bundle is listed; all but the manifest are as recorded. */
  lemma VerifiedFilesAreListed(H: Hasher, bundle: seq<Child>, m: Manifest, e: Entry)
    requires WellNamed(bundle) && Verifies(H, bundle, m) && e in FlatAll([], bundle) && e.kind.FileWith?
    ensures
      || Join(e.path) == "manifest.json"
      || exists f :: f in [m.database] + m.artifacts && f.path == Join(e.path)
           && f.blake3 == H(e.kind.content) && f.bytes == |e.kind.content|
  {
    VerifiesExactlyWhen(H, bundle, m);
    var p := Join(e.path);
    assert HasFile(bundle, p);
    if p == "database.sqlite3" {
      RecordedAs(H, bundle, m.database, e);
    } else if p != "manifest.json" {
      var f :| f in m.artifacts && f.path == p;
      RecordedAs(H, bundle, f, e);
    }
  }

  lemma RecordedAs(H: Hasher, bundle: seq<Child>, f: BackupFile, e: Entry)
    requires WellNamed(bundle) && Recorded(H, bundle, f)
    requires e in FlatAll([], bundle) && e.kind.FileWith? && Join(e.path) == f.path
    ensures f.blake3 == H(e.kind.content) && f.bytes == |e.kind.content|
  {
    var d :| d in FlatAll([], bundle) && d.kind.FileWith? && Join(d.path) == f.path
      && H(d.kind.content) == f.blake3 && |d.kind.content| == f.bytes;
    OneFilePerPath(bundle, d, e);
  }

  lemma OneFilePerPath(bundle: seq<Child>, d: Entry, e: Entry)
    requires WellNamed(bundle) && d in FlatAll([], bundle) && e in FlatAll([], bundle) && Join(d.path) == Join(e.path)
    ensures d == e
  {
    EntriesAreBelow([], bundle, d);
    EntriesAreBelow([], bundle, e);
    assert d.path[0..] == d.path && e.path[0..] == e.path;
    SplitJoin(d.path);
    SplitJoin(e.path);
    ListedOnce([], bundle);
  }

  /** One more file, which the manifest does not list, spoils a bundle. */
  lemma UnlistedFileSpoils(H: Hasher, bundle: seq<Child>, m: Manifest, e: Entry, spoiled: seq<Child>)
    requires WellNamed(spoiled) && multiset(FlatAll([], spoiled)) == multiset(FlatAll([], bundle)) + multiset{e}
    requires e.kind.FileWith? && Join(e.path) != "manifest.json" && Join(e.path) != "database.sqlite3"
    requires forall f :: f in m.artifacts ==> f.path != Join(e.path)
    ensures !Verifies(H, spoiled, m)
  {
    assert e in multiset(FlatAll([], spoiled));
    VerifiesExactlyWhen(H, spoiled, m);
    assert HasFile(spoiled, Join(e.path)) && !Listed(m, Join(e.path));
  }

  // ----- What can be backed up, and what is restored -----

  /** Source trees whose backup succeeds, said with their limits. */
  lemma CreatableMeans(source: seq<Child>)
    ensures
      var es := FlatAll(["artifacts"], source);
      CopyAccepts(FlatAll([ARTIFACTS], source)) && PathsSurvive(FlatAll([ARTIFACTS], source)) <==>
        && |es| <= 100_000
        && (forall e :: e in es ==> e.kind != Odd && |e.path| <= 64 && Join(e.path) != "" && |Join(e.path)| <= 4096)
        && forall e, i :: e in es && e.kind.FileWith? && 0 <= i < |e.path| ==> '\\' !in e.path[i]
  {
    Literals();
  }

  /** A restored home: the database as hardknock.db, every artifact under its path, nothing
    * else, and all with the contents the bundle has. */
  lemma HomeMeans(bundle: seq<Child>, m: Manifest, stage: map<string, Content>, p: string)
    requires InOrder(m) && IsHome(bundle, m, stage)
    ensures p in stage <==> p == "hardknock.db" || exists f :: f in m.artifacts && f.path == p
    ensures p in stage ==>
      var original := if p == "hardknock.db" then "database.sqlite3" else p;
      exists e :: e in FlatAll([], bundle) && e.kind == FileWith(stage[p]) && Join(e.path) == original
  {
    Literals();
    StagePathsAre(m.artifacts, p);
    if p == "hardknock.db" {
      CopiedIsThere(bundle, m.database, stage, p);
    } else if f :| f in m.artifacts && f.path == p {
      var i :| 0 <= i < |m.artifacts| && m.artifacts[i] == f;
      CopiedIsThere(bundle, f, stage, p);
    }
  }

  lemma CopiedIsThere(bundle: seq<Child>, f: BackupFile, stage: map<string, Content>, p: string)
    requires CopiedTo(bundle, f, stage, p)
    ensures exists e :: e in FlatAll([], bundle) && e.kind == FileWith(stage[p]) && Join(e.path) == f.path
  {
    FoundIsEntry([], bundle, Split(f.path));
    assert [] + Split(f.path) == Split(f.path);
    JoinSplit(f.path);
  }
}
