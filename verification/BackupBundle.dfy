/** The manifest of a bundle: writing it, verifying a bundle against it, restoring from it. */
module BackupBundle {
  import opened Orders
  import opened ManifestPath
  import opened Paths
  import opened BackupTree
  import opened BackupPaths
  import opened Backup
  import opened Wrappers

  // ----- The manifest of a copy -----

  predicate FileLe(a: BackupFile, b: BackupFile) { StringOrder()(a.path, b.path) }

  function FileOrder(): (BackupFile, BackupFile) -> bool {
    (a: BackupFile, b: BackupFile) => FileLe(a, b)
  }

  /** What creating a backup writes into the manifest. */
  function ManifestFor(H: Hasher, database: Content, files: seq<BackupFile>): Manifest {
    Manifest(DescribeFile(H, [DATABASE_FILE], database), Sort(FileOrder(), files))
  }

  // ----- Validating a manifest -----

  predicate HexDigit(c: char) { '0' <= c <= '9' || 'a' <= c <= 'f' }

  predicate HexHash(s: string) { |s| == 64 && forall i :: 0 <= i < |s| ==> HexDigit(s[i]) }

  predicate Before(a: string, b: string) { !StringOrder()(b, a) }

  /** Sorted and unique. */
  predicate Increasing(fs: seq<BackupFile>) {
    forall i, j :: 0 <= i < j < |fs| ==> Before(fs[i].path, fs[j].path)
  }

  predicate AllValid(fs: seq<BackupFile>) {
    forall i :: 0 <= i < |fs| ==> ArtifactPath(fs[i].path) && HexHash(fs[i].blake3)
  }

  predicate ManifestValid(m: Manifest) {
    && m.database.path == DATABASE_FILE && HexHash(m.database.blake3)
    && |m.artifacts| <= MAX_BACKUP_FILES && AllValid(m.artifacts) && Increasing(m.artifacts)
  }

  method IsHexHash(s: string) returns (ok: bool)
    ensures ok <==> HexHash(s)
  {
    if |s| != 64 {
      return false;
    }
    for i := 0 to |s|
      invariant forall k :: 0 <= k < i ==> HexDigit(s[k])
    {
      if !HexDigit(s[i]) {
        return false;
      }
    }
    return true;
  }

  method ValidateBackupFile(f: BackupFile, artifact: bool) returns (ok: bool)
    ensures ok <==> Admitted(f.path, artifact) && HexHash(f.blake3)
  {
    var names := ValidateManifestPath(f.path, artifact);
    if names.None? {
      return false;
    }
    ok := IsHexHash(f.blake3);
  }

  lemma BeforeTransitive(a: string, b: string, c: string)
    requires Before(a, b) && Before(b, c)
    ensures Before(a, c)
  {
    StringOrderIsTotal();
    var le := StringOrder();
    assert le(a, b) || le(b, a);
    assert le(b, c) || le(c, b);
    assert le(a, b) && (le(c, a) ==> le(c, b));
  }

  /** The first entries are sorted, and each of them is valid. */
  predicate Checked(fs: seq<BackupFile>) { AllValid(fs) && Increasing(fs) }

  lemma IncreasingGrows(fs: seq<BackupFile>, f: BackupFile)
    requires Increasing(fs) && (fs != [] ==> Before(fs[|fs| - 1].path, f.path))
    ensures Increasing(fs + [f])
  {
    var last := |fs| - 1;
    forall i | 0 <= i < |fs| ensures Before(fs[i].path, f.path) {
      if i < last {
        assert Before(fs[i].path, fs[last].path);
        BeforeTransitive(fs[i].path, fs[last].path, f.path);
      }
    }
  }

  lemma CheckedGrows(fs: seq<BackupFile>, k: nat)
    requires k < |fs| && Checked(fs[..k]) && ArtifactPath(fs[k].path) && HexHash(fs[k].blake3)
    requires k > 0 ==> Before(fs[k - 1].path, fs[k].path)
    ensures Checked(fs[..k + 1])
  {
    var front := fs[..k];
    IncreasingGrows(front, fs[k]);
    assert fs[..k + 1] == front + [fs[k]];
  }

  /** One entry that fails its check spoils the manifest. */
  lemma NotChecked(fs: seq<BackupFile>, k: nat)
    requires k < |fs|
    requires (ArtifactPath(fs[k].path) && HexHash(fs[k].blake3)) ==> k > 0 && !Before(fs[k - 1].path, fs[k].path)
    ensures !Checked(fs)
  {
  }

  /** The loop over the artifacts: each valid, and each after the one before it. */
  method ValidateArtifacts(fs: seq<BackupFile>) returns (ok: bool)
    ensures ok <==> Checked(fs)
  {
    var previous: Option<string> := None;
    for i := 0 to |fs|
      invariant Checked(fs[..i])
      invariant previous == if i == 0 then None else Some(fs[i - 1].path)
    {
      ok := ValidateBackupFile(fs[i], true);
      if !ok || (previous.Some? && StringOrder()(fs[i].path, previous.value)) {
        NotChecked(fs, i);
        return false;
      }
      CheckedGrows(fs, i);
      previous := Some(fs[i].path);
    }
    assert fs[..|fs|] == fs;
    return true;
  }

  /** `validate_manifest`: the inventory's part of it. */
  method ValidateManifest(m: Manifest) returns (ok: bool)
    ensures ok <==> ManifestValid(m)
  {
    if m.database.path != DATABASE_FILE {
      return false;
    }
    ok := ValidateBackupFile(m.database, false);
    if !ok || |m.artifacts| > MAX_BACKUP_FILES {
      return false;
    }
    ok := ValidateArtifacts(m.artifacts);
  }

  // ----- The bundle's inventory against the manifest's -----

  function ParentsOf(names: Path): set<string> {
    if |names| <= 1 then {} else {Join(names[..|names| - 1])} + ParentsOf(names[..|names| - 1])
  }

  function ExpectedFiles(fs: seq<BackupFile>): set<string> {
    if fs == [] then {MANIFEST_FILE, DATABASE_FILE}
    else ExpectedFiles(fs[..|fs| - 1]) + {fs[|fs| - 1].path}
  }

  function ExpectedFolders(fs: seq<BackupFile>): set<string> {
    if fs == [] then {ARTIFACTS}
    else ExpectedFolders(fs[..|fs| - 1]) + ParentsOf(Split(fs[|fs| - 1].path))
  }

  ghost predicate InventoryMatches(es: seq<Entry>, m: Manifest) {
    && InventoryAccepts(es)
    && FilePaths(es) == ExpectedFiles(m.artifacts) && ExpectedFolders(m.artifacts) <= FolderPaths(es)
  }

  lemma {:induction false} JoinPrefix(names: Path, k: nat)
    requires 0 < k <= |names| && AllPlain(names)
    ensures Join(names[..k]) != "" && |Join(names[..k])| <= |Join(names)|
  {
    if |names| > 1 {
      if k > 1 {
        JoinPrefix(names[1..], k - 1);
        assert names[..k][1..] == names[1..][..k - 1];
      } else {
        assert names[..1] == [names[0]];
      }
    } else {
      assert names[..k] == names;
    }
    assert names[0] != "";
  }

  lemma ParentIsPrintable(names: Path, k: nat)
    requires 0 < k <= |names| && AllPlain(names) && Printable(names)
    ensures Printable(names[..k])
  {
    JoinPrefix(names, k);
  }

  /** The directories a file needs: every parent, up to the root. */
  method Parents(names: Path) returns (folders: set<string>)
    requires AllPlain(names) && Printable(names) && names != []
    ensures folders == ParentsOf(names)
  {
    folders := {};
    var rest := names[..|names| - 1];
    assert names[..|rest| + 1] == names;
    while rest != []
      invariant |rest| < |names| && rest == names[..|rest|]
      invariant folders + ParentsOf(names[..|rest| + 1]) == ParentsOf(names)
    {
      ParentIsPrintable(names, |rest|);
      assert names[..|rest| + 1][..|rest|] == rest;
      var printed := PrintPath(rest);
      folders := folders + {printed.value};
      rest := rest[..|rest| - 1];
    }
    assert ParentsOf(names[..1]) == {};
  }

  /** `verify_bundle_inventory`. */
  method VerifyBundleInventory(bundle: seq<Child>, m: Manifest) returns (ok: bool)
    requires ManifestValid(m)
    ensures ok <==> InventoryMatches(FlatAll([], bundle), m)
  {
    var found := CollectInventory(bundle);
    if found.None? {
      return false;
    }
    var expectedFiles := {MANIFEST_FILE, DATABASE_FILE};
    var expectedFolders := {ARTIFACTS};
    for i := 0 to |m.artifacts|
      invariant expectedFiles == ExpectedFiles(m.artifacts[..i])
      invariant expectedFolders == ExpectedFolders(m.artifacts[..i])
    {
      assert m.artifacts[..i + 1][..i] == m.artifacts[..i];
      expectedFiles := expectedFiles + {m.artifacts[i].path};
      PrintAfterParse(m.artifacts[i].path, true);
      var parents := Parents(Split(m.artifacts[i].path));
      expectedFolders := expectedFolders + parents;
    }
    assert m.artifacts[..|m.artifacts|] == m.artifacts;
    return found.value.files == expectedFiles && expectedFolders <= found.value.directories;
  }

  // ----- Verifying a bundle -----

  /** The file a manifest entry names is there and has the entry's hash and size. */
  predicate FileMatches(H: Hasher, bundle: seq<Child>, f: BackupFile) {
    var content := Find(bundle, Split(f.path));
    content.Some? && H(content.value) == f.blake3 && |content.value| == f.bytes
  }

  predicate AllMatch(H: Hasher, bundle: seq<Child>, fs: seq<BackupFile>) {
    forall i :: 0 <= i < |fs| ==> FileMatches(H, bundle, fs[i])
  }

  ghost predicate Verifies(H: Hasher, bundle: seq<Child>, m: Manifest) {
    && ManifestValid(m) && InventoryMatches(FlatAll([], bundle), m)
    && FileMatches(H, bundle, m.database) && AllMatch(H, bundle, m.artifacts)
  }

  /** `verify_manifest_file`. */
  method VerifyManifestFile(H: Hasher, bundle: seq<Child>, f: BackupFile) returns (ok: bool)
    ensures ok <==> Admitted(f.path, f.path != DATABASE_FILE) && FileMatches(H, bundle, f)
  {
    var relative := ValidateManifestPath(f.path, f.path != DATABASE_FILE);
    if relative.None? {
      return false;
    }
    var content := Find(bundle, relative.value);
    return content.Some? && H(content.value) == f.blake3 && |content.value| == f.bytes;
  }

  /** A longer plain name cannot be an artifact's path. */
  lemma ArtifactIsNot(path: string, name: string)
    requires ArtifactPath(path) && |name| > 9 && '/' !in name
    ensures path != name
  {
    LongPieceIsPlain(name);
  }

  /** The loop over the manifest's artifacts. */
  method VerifyArtifacts(H: Hasher, bundle: seq<Child>, fs: seq<BackupFile>) returns (ok: bool)
    requires AllValid(fs)
    ensures ok <==> AllMatch(H, bundle, fs)
  {
    DatabaseFileLetters();
    for i := 0 to |fs|
      invariant AllMatch(H, bundle, fs[..i])
    {
      ArtifactIsNot(fs[i].path, DATABASE_FILE);
      ok := VerifyManifestFile(H, bundle, fs[i]);
      if !ok {
        return;
      }
    }
    assert fs[..|fs|] == fs;
    return true;
  }

  /** `verify_backup_internal`, the database's own contents aside. */
  method VerifyBackup(H: Hasher, bundle: seq<Child>, m: Manifest) returns (ok: bool)
    ensures ok <==> Verifies(H, bundle, m)
  {
    ok := ValidateManifest(m);
    if !ok {
      return;
    }
    ok := VerifyBundleInventory(bundle, m);
    if !ok {
      return;
    }
    ok := VerifyManifestFile(H, bundle, m.database);
    if !ok {
      return;
    }
    ok := VerifyArtifacts(H, bundle, m.artifacts);
  }

  // ----- Restoring -----

  function StagePaths(fs: seq<BackupFile>): set<string> {
    if fs == [] then {RESTORED_DATABASE_FILE} else StagePaths(fs[..|fs| - 1]) + {fs[|fs| - 1].path}
  }

  /** The stage holds under `p` the contents the bundle has under the entry's path. */
  predicate CopiedTo(bundle: seq<Child>, f: BackupFile, stage: map<string, Content>, p: string) {
    p in stage && Find(bundle, Split(f.path)) == Some(stage[p])
  }

  /** The new home: the database under its new name and each artifact under its path,
    * with the contents found in the bundle, and nothing else. */
  predicate IsHome(bundle: seq<Child>, m: Manifest, stage: map<string, Content>) {
    && stage.Keys == StagePaths(m.artifacts)
    && CopiedTo(bundle, m.database, stage, RESTORED_DATABASE_FILE)
    && AllCopied(bundle, m.artifacts, stage)
  }

  predicate AllCopied(bundle: seq<Child>, fs: seq<BackupFile>, stage: map<string, Content>) {
    forall i :: 0 <= i < |fs| ==> CopiedTo(bundle, fs[i], stage, fs[i].path)
  }

  /** No copy overwrites another. */
  predicate Targets(fs: seq<BackupFile>) {
    && (forall i :: 0 <= i < |fs| ==> fs[i].path != RESTORED_DATABASE_FILE)
    && (forall i, j :: 0 <= i < j < |fs| ==> fs[i].path != fs[j].path)
  }

  lemma ValidTargets(fs: seq<BackupFile>)
    requires AllValid(fs) && Increasing(fs)
    ensures Targets(fs)
  {
    RestoredLetters();
    StringOrderIsTotal();
    forall i | 0 <= i < |fs| ensures fs[i].path != RESTORED_DATABASE_FILE {
      ArtifactIsNot(fs[i].path, RESTORED_DATABASE_FILE);
    }
    forall i, j | 0 <= i < j < |fs| ensures fs[i].path != fs[j].path {
      assert Before(fs[i].path, fs[j].path);
    }
  }

  /** `copy_verified_file`. */
  method CopyVerifiedFile(H: Hasher, bundle: seq<Child>, f: BackupFile, stage: map<string, Content>, destination: string)
    returns (r: Option<map<string, Content>>)
    ensures r.Some? <==> FileMatches(H, bundle, f)
    ensures r.Some? ==> r.value == stage[destination := Find(bundle, Split(f.path)).value]
  {
    var content := Find(bundle, Split(f.path));
    if content.None? {
      return None;
    }
    if H(content.value) != f.blake3 || |content.value| != f.bytes {
      return None;
    }
    return Some(stage[destination := content.value]);
  }

  predicate Holds(H: Hasher, stage: map<string, Content>, p: string, f: BackupFile) {
    p in stage && H(stage[p]) == f.blake3 && |stage[p]| == f.bytes
  }

  predicate StageMatches(H: Hasher, stage: map<string, Content>, m: Manifest) {
    && Holds(H, stage, RESTORED_DATABASE_FILE, m.database)
    && forall i :: 0 <= i < |m.artifacts| ==> Holds(H, stage, m.artifacts[i].path, m.artifacts[i])
  }

  /** `verify_restored_stage`. */
  method VerifyRestoredStage(H: Hasher, stage: map<string, Content>, m: Manifest) returns (ok: bool)
    ensures ok <==> StageMatches(H, stage, m)
  {
    if !Holds(H, stage, RESTORED_DATABASE_FILE, m.database) {
      return false;
    }
    for i := 0 to |m.artifacts|
      invariant forall k :: 0 <= k < i ==> Holds(H, stage, m.artifacts[k].path, m.artifacts[k])
    {
      if !Holds(H, stage, m.artifacts[i].path, m.artifacts[i]) {
        return false;
      }
    }
    return true;
  }

  lemma CopiesMatch(H: Hasher, later: seq<Child>, m: Manifest, stage: map<string, Content>)
    requires IsHome(later, m, stage) && FileMatches(H, later, m.database) && AllMatch(H, later, m.artifacts)
    ensures StageMatches(H, stage, m)
  {
    forall i | 0 <= i < |m.artifacts| ensures Holds(H, stage, m.artifacts[i].path, m.artifacts[i]) {
      assert FileMatches(H, later, m.artifacts[i]) && CopiedTo(later, m.artifacts[i], stage, m.artifacts[i].path);
    }
  }

  function FirstOf(m: Manifest, i: nat): Manifest
    requires i <= |m.artifacts|
  {
    Manifest(m.database, m.artifacts[..i])
  }

  lemma CopyOne(H: Hasher, later: seq<Child>, m: Manifest, i: nat, stage: map<string, Content>)
    requires Targets(m.artifacts) && i < |m.artifacts| && FileMatches(H, later, m.artifacts[i])
    requires AllMatch(H, later, m.artifacts[..i]) && IsHome(later, FirstOf(m, i), stage)
    ensures AllMatch(H, later, m.artifacts[..i + 1])
    ensures IsHome(later, FirstOf(m, i + 1), stage[m.artifacts[i].path := Find(later, Split(m.artifacts[i].path)).value])
  {
    var fs, f := m.artifacts, m.artifacts[i];
    var next := stage[f.path := Find(later, Split(f.path)).value];
    assert fs[..i + 1] == fs[..i] + [f] && fs[..i + 1][..i] == fs[..i];
    assert next.Keys == stage.Keys + {f.path};
    var grown := fs[..i + 1];
    forall k | 0 <= k < |grown| ensures CopiedTo(later, grown[k], next, grown[k].path) {
      if k < i {
        assert CopiedTo(later, fs[..i][k], stage, fs[..i][k].path);
      }
    }
  }

  /** The copies of `restore_backup`. */
  method CopyOut(H: Hasher, later: seq<Child>, m: Manifest) returns (r: Option<map<string, Content>>)
    requires Targets(m.artifacts)
    ensures r.Some? <==> FileMatches(H, later, m.database) && AllMatch(H, later, m.artifacts)
    ensures r.Some? ==> IsHome(later, m, r.value)
  {
    r := CopyVerifiedFile(H, later, m.database, map[], RESTORED_DATABASE_FILE);
    if r.None? {
      return;
    }
    var stage := r.value;
    for i := 0 to |m.artifacts|
      invariant AllMatch(H, later, m.artifacts[..i]) && IsHome(later, FirstOf(m, i), stage)
    {
      r := CopyVerifiedFile(H, later, m.artifacts[i], stage, m.artifacts[i].path);
      if r.None? {
        return;
      }
      CopyOne(H, later, m, i, stage);
      stage := r.value;
    }
    assert m.artifacts[..|m.artifacts|] == m.artifacts;
    return Some(stage);
  }

  /** `restore_backup`: verification reads the bundle as it is then, copying as it is
    * later. */
  method RestoreBackup(H: Hasher, bundle: seq<Child>, later: seq<Child>, m: Manifest)
    returns (r: Option<map<string, Content>>)
    ensures r.Some? <==>
      Verifies(H, bundle, m) && FileMatches(H, later, m.database) && AllMatch(H, later, m.artifacts)
    ensures r.Some? ==> IsHome(later, m, r.value)
  {
    var ok := VerifyBackup(H, bundle, m);
    if !ok {
      return None;
    }
    ValidTargets(m.artifacts);
    r := CopyOut(H, later, m);
    if r.Some? {
      CopiesMatch(H, later, m, r.value);
      var rechecked := VerifyRestoredStage(H, r.value, m);
      // What was just copied passes the check again.
      assert rechecked;
    }
  }

  lemma RestoredLetters()
    ensures |RESTORED_DATABASE_FILE| == 12 && '/' !in RESTORED_DATABASE_FILE
  {
  }
}
