/** What is in the release documents, said of the inputs alone. */
module ReleaseContents {
  import opened Orders
  import opened ReleaseMetadata
  import opened ReleaseDocuments
  import opened ReleaseOrder
  import opened Wrappers

  // ----- Which inputs are accepted -----

  predicate Names(p: Package, l: Locked) { l.name == p.name && l.version == p.version && l.source == p.source }

  ghost predicate IsPackage(m: Metadata, id: Id) { exists p :: p in m.packages && p.id == id }

  /** The cargo metadata names each package once, with a license, and a root among them; each
    * node and dependency is a package, no package has two nodes, and what the root reaches
    * has one. */
  ghost predicate GoodMetadata(m: Metadata) {
    && (forall i, j :: 0 <= i < j < |m.packages| ==> m.packages[i].id != m.packages[j].id)
    && (forall p :: p in m.packages ==> p.license != None || p.licenseFile != None)
    && IsPackage(m, m.root)
    && (forall i, j :: 0 <= i < j < |m.nodes| ==> m.nodes[i].id != m.nodes[j].id)
    && (forall n :: n in m.nodes ==> IsPackage(m, n.id) && forall id :: id in n.dependencies ==> IsPackage(m, id))
    && (forall id :: Reaches(m.nodes, m.root, id) ==> exists n :: n in m.nodes && n.id == id)
  }

  /** The lock file names each package once, and its checksums are 64 hexadecimal digits. */
  predicate GoodLock(lock: seq<Locked>) {
    && (forall i, j :: 0 <= i < j < |lock| ==>
          lock[i].name != lock[j].name || lock[i].version != lock[j].version || lock[i].source != lock[j].source)
    && forall l :: l in lock && l.checksum.Some? ==>
         |l.checksum.value| == 64 && forall i :: 0 <= i < 64 ==> l.checksum.value[i] in "0123456789abcdefABCDEF"
  }

  lemma HexDigitMeans(c: char)
    ensures HexDigit(c) <==> c in "0123456789abcdefABCDEF"
  {
    assert "0123456789abcdefABCDEF" == "01234567" + "89abcdef" + "ABCDEF";
    assert c in "01234567" <==> '0' <= c <= '7';
    assert c in "89abcdef" <==> c == '8' || c == '9' || 'a' <= c <= 'f';
    assert c in "ABCDEF" <==> 'A' <= c <= 'F';
  }

  lemma HasPackageMeans(m: Metadata, id: Id)
    ensures HasPackage(m.packages, id) <==> IsPackage(m, id)
  {
    if p :| p in m.packages && p.id == id {
      var i :| 0 <= i < |m.packages| && m.packages[i] == p;
    }
  }

  lemma HasNodeMeans(ns: seq<Node>, id: Id)
    ensures HasNode(ns, id) <==> exists n :: n in ns && n.id == id
  {
    if n :| n in ns && n.id == id {
      var i :| 0 <= i < |ns| && ns[i] == n;
    }
  }

  lemma AllKnownMeans(ids: seq<Id>, m: Metadata)
    ensures AllKnown(ids, m.packages) <==> forall id :: id in ids ==> IsPackage(m, id)
  {
    forall id ensures HasPackage(m.packages, id) <==> IsPackage(m, id) {
      HasPackageMeans(m, id);
    }
    if AllKnown(ids, m.packages) {
      forall id | id in ids ensures HasPackage(m.packages, id) {
        var i :| 0 <= i < |ids| && ids[i] == id;
      }
    }
    if forall id :: id in ids ==> IsPackage(m, id) {
      forall i | 0 <= i < |ids| ensures HasPackage(m.packages, ids[i]) {
        assert ids[i] in ids;
      }
    }
  }

  lemma NodesKnownMeans(m: Metadata)
    ensures NodesKnown(m.nodes, m.packages) <==>
      forall n :: n in m.nodes ==> IsPackage(m, n.id) && forall id :: id in n.dependencies ==> IsPackage(m, id)
  {
    forall i | 0 <= i < |m.nodes|
      ensures HasPackage(m.packages, m.nodes[i].id) <==> IsPackage(m, m.nodes[i].id)
      ensures AllKnown(m.nodes[i].dependencies, m.packages) <==>
        forall id :: id in m.nodes[i].dependencies ==> IsPackage(m, id) {
      HasPackageMeans(m, m.nodes[i].id);
      AllKnownMeans(m.nodes[i].dependencies, m);
    }
  }

  lemma GraphMeans(m: Metadata)
    ensures GraphConsistent(m) <==> GoodMetadata(m)
  {
    HasPackageMeans(m, m.root);
    NodesKnownMeans(m);
    forall id ensures HasNode(m.nodes, id) <==> exists n :: n in m.nodes && n.id == id {
      HasNodeMeans(m.nodes, id);
    }
  }

  lemma LockMeans(lock: seq<Locked>)
    ensures LockValid(lock) <==> GoodLock(lock)
  {
    forall i | 0 <= i < |lock|
      ensures ChecksumValid(lock[i].checksum) <==>
        (lock[i].checksum.Some? ==>
           && |lock[i].checksum.value| == 64
           && forall k :: 0 <= k < 64 ==> lock[i].checksum.value[k] in "0123456789abcdefABCDEF") {
      if lock[i].checksum.Some? && |lock[i].checksum.value| == 64 {
        forall k | 0 <= k < 64
          ensures HexDigit(lock[i].checksum.value[k]) <==> lock[i].checksum.value[k] in "0123456789abcdefABCDEF" {
          HexDigitMeans(lock[i].checksum.value[k]);
        }
      }
    }
  }

  lemma LockedMeans(m: Metadata, lock: seq<Locked>)
    ensures ReachedAreLocked(m, lock) <==>
      forall p :: p in m.packages && Reaches(m.nodes, m.root, p.id) ==> exists l :: l in lock && Names(p, l)
  {
    forall i | 0 <= i < |m.packages|
      ensures HasLocked(lock, m.packages[i].LockKey()) <==> exists l :: l in lock && Names(m.packages[i], l) {
      if l :| l in lock && Names(m.packages[i], l) {
        var k :| 0 <= k < |lock| && lock[k] == l;
      }
      if HasLocked(lock, m.packages[i].LockKey()) {
        var k :| 0 <= k < |lock| && lock[k].LockKey() == m.packages[i].LockKey();
        assert lock[k] in lock && Names(m.packages[i], lock[k]);
      }
    }
  }

  /** Documents are made exactly of good metadata and a good lock file that has every package
    * the root reaches, the workspace members being packages too. */
  lemma GeneratedExactlyWhen(B: Naming, m: Metadata, lock: seq<Locked>, d: Option<Documents>)
    requires Generates(B, m, lock, d)
    ensures d.Some? <==>
      && GoodMetadata(m) && GoodLock(lock)
      && (forall p :: p in m.packages && Reaches(m.nodes, m.root, p.id) ==> exists l :: l in lock && Names(p, l))
      && forall id :: id in m.members ==> IsPackage(m, id)
  {
    GraphMeans(m);
    LockMeans(lock);
    LockedMeans(m, lock);
    AllKnownMeans(m.members, m);
  }

  // ----- What the documents list -----

  function SourceOf(p: Package): string { if p.source.Some? then p.source.value else p.local }

  /** The same digits, the letters among them lower-cased. */
  predicate Lowered(c: Option<string>, d: Option<string>) {
    match (c, d)
    case (None, None) => true
    case (Some(x), Some(y)) =>
      |x| == |y| && forall i :: 0 <= i < |x| ==> y[i] == if 'A' <= x[i] <= 'F' then x[i] - 'A' + 'a' else x[i]
    case _ => false
  }

  /** The component says of the package what the metadata and the lock file say of it. */
  predicate Describes(B: Naming, p: Package, l: Locked, c: Component) {
    && Names(p, l) && Lowered(l.checksum, c.checksum)
    && c.ref == B(p.name, p.version, SourceOf(p)) && c.name == p.name && c.version == p.version
    && c.source == SourceOf(p) && c.license == p.license && c.licenseFile == p.licenseFile && c.details == p.details
  }

  ghost predicate Lists(B: Naming, m: Metadata, lock: seq<Locked>, p: Package, c: Component) {
    p in m.packages && Reaches(m.nodes, m.root, p.id) && exists l :: l in lock && Describes(B, p, l, c)
  }

  lemma LowerMeans(c: Option<string>, d: Option<string>)
    requires ChecksumValid(c)
    ensures d == LowerChecksum(c) <==> Lowered(c, d)
  {
    if c.Some? && d.Some? && Lowered(c, d) {
      forall i | 0 <= i < |c.value| ensures d.value[i] == Lower(c.value)[i] {
        assert HexDigit(c.value[i]);
      }
      assert d.value == Lower(c.value);
    }
    if c.Some? {
      forall i | 0 <= i < |c.value|
        ensures Lower(c.value)[i] == if 'A' <= c.value[i] <= 'F' then c.value[i] - 'A' + 'a' else c.value[i] {
        assert HexDigit(c.value[i]);
      }
    }
  }

  /** A lock file with distinct keys has one checksum for a package. */
  lemma ChecksumMeans(lock: seq<Locked>, p: Package, l: Locked, c: Option<string>)
    requires LockValid(lock) && l in lock && Names(p, l)
    ensures IsChecksumOf(c, p, lock) <==> Lowered(l.checksum, c)
  {
    var k :| 0 <= k < |lock| && lock[k] == l;
    LowerMeans(l.checksum, c);
    if IsChecksumOf(c, p, lock) {
      var i :| 0 <= i < |lock| && lock[i].LockKey() == p.LockKey() && c == LowerChecksum(lock[i].checksum);
      assert i == k;
    }
  }

  lemma ComponentDescribes(B: Naming, m: Metadata, lock: seq<Locked>, r: Resolution, id: Id, c: Component)
    requires Complete(r) && IsResolution(m, lock, r) && LockValid(lock) && id in r.packages
    ensures c == ComponentOf(B, r, id) <==> Lists(B, m, lock, r.packages[id], c)
  {
    var p := r.packages[id];
    assert p in m.packages && Reaches(m.nodes, m.root, p.id);
    var i :| 0 <= i < |lock| && lock[i].LockKey() == p.LockKey() && r.checksums[id] == LowerChecksum(lock[i].checksum);
    assert lock[i] in lock && Names(p, lock[i]);
    ChecksumMeans(lock, p, lock[i], r.checksums[id]);
    if c == ComponentOf(B, r, id) {
      assert Describes(B, p, lock[i], c);
    }
    if l :| l in lock && Describes(B, p, l, c) {
      ChecksumMeans(lock, p, l, r.checksums[id]);
      ChecksumMeans(lock, p, l, c.checksum);
      OneChecksum(lock, p, c.checksum, r.checksums[id]);
    }
  }

  lemma ResolvedPackage(m: Metadata, lock: seq<Locked>, r: Resolution, p: Package)
    requires IsResolution(m, lock, r) && DistinctPackages(m.packages)
    requires p in m.packages && Reaches(m.nodes, m.root, p.id)
    ensures p.id in r.packages && r.packages[p.id] == p
  {
    OnePackage(m.packages, p, r.packages[p.id]);
  }

  lemma DirectMeans(m: Metadata, lock: seq<Locked>, r: Resolution, id: Id)
    requires IsResolution(m, lock, r) && DistinctNodes(m.nodes) && r.root in r.nodes
    ensures id in r.nodes[r.root].dependencies <==>
      exists n :: n in m.nodes && n.id == m.root && id in n.dependencies
  {
    if n :| n in m.nodes && n.id == m.root && id in n.dependencies {
      OneNode(m.nodes, n, r.nodes[r.root]);
    }
  }

  /** What the lists are proved from. */
  ghost predicate Given(B: Naming, m: Metadata, lock: seq<Locked>, r: Resolution, d: Documents) {
    && DistinctPackages(m.packages) && DistinctNodes(m.nodes) && LockValid(lock)
    && IsResolution(m, lock, r) && Documented(B, r, d) && r.root in r.packages
  }

  lemma IsGiven(B: Naming, m: Metadata, lock: seq<Locked>, d: Documents) returns (r: Resolution)
    requires Generates(B, m, lock, Some(d))
    ensures Given(B, m, lock, r, d)
  {
    r :| IsResolution(m, lock, r) && Documented(B, r, d);
    assert GraphConsistent(m);
  }

  lemma ListedComponent(B: Naming, m: Metadata, lock: seq<Locked>, r: Resolution, d: Documents, c: Component)
    requires Given(B, m, lock, r, d)
    ensures (exists id :: id in r.packages && id != r.root && c == ComponentOf(B, r, id))
      <==> exists p :: Lists(B, m, lock, p, c) && p.id != m.root
  {
    if id :| id in r.packages && id != r.root && c == ComponentOf(B, r, id) {
      ComponentDescribes(B, m, lock, r, id, c);
      assert Lists(B, m, lock, r.packages[id], c);
    }
    if p :| Lists(B, m, lock, p, c) && p.id != m.root {
      ResolvedPackage(m, lock, r, p);
      ComponentDescribes(B, m, lock, r, p.id, c);
    }
  }

  /** The components are those of the packages that the root reaches other than itself, each
    * with the fields of its package and the lower-cased checksum of its lock entry. */
  lemma ComponentsList(B: Naming, m: Metadata, lock: seq<Locked>, d: Documents, c: Component)
    requires Generates(B, m, lock, Some(d))
    ensures c in d.sbom.components <==> exists p :: Lists(B, m, lock, p, c) && p.id != m.root
    ensures exists p :: Lists(B, m, lock, p, d.sbom.root) && p.id == m.root
    ensures d.inventoryRoot == d.sbom.root
  {
    var r := IsGiven(B, m, lock, d);
    ResolvedComponents(B, r, d, c);
    ListedComponent(B, m, lock, r, d, c);
    ComponentDescribes(B, m, lock, r, r.root, d.sbom.root);
    assert Lists(B, m, lock, r.packages[r.root], d.sbom.root);
  }

  /** The entry is of this package. */
  ghost predicate ListsEntry(B: Naming, m: Metadata, lock: seq<Locked>, p: Package, e: InventoryEntry) {
    && Lists(B, m, lock, p, e.component) && p.id !in m.members
    && (e.direct <==> exists n :: n in m.nodes && n.id == m.root && p.id in n.dependencies)
  }

  lemma ListedEntry(B: Naming, m: Metadata, lock: seq<Locked>, r: Resolution, d: Documents, e: InventoryEntry)
    requires Given(B, m, lock, r, d)
    ensures (exists id :: id in r.packages && id !in r.members && e.component == ComponentOf(B, r, id)
                          && (e.direct <==> id in r.nodes[r.root].dependencies))
      <==> exists p :: ListsEntry(B, m, lock, p, e)
  {
    if id :|
      && id in r.packages && id !in r.members && e.component == ComponentOf(B, r, id)
      && (e.direct <==> id in r.nodes[r.root].dependencies)
    {
      ComponentDescribes(B, m, lock, r, id, e.component);
      DirectMeans(m, lock, r, id);
      assert ListsEntry(B, m, lock, r.packages[id], e);
    }
    if p :| ListsEntry(B, m, lock, p, e) {
      ResolvedPackage(m, lock, r, p);
      ComponentDescribes(B, m, lock, r, p.id, e.component);
      DirectMeans(m, lock, r, p.id);
    }
  }

  /** The license inventory lists the reached packages outside the workspace, and says which
    * of them the root's node names. */
  lemma InventoryLists(B: Naming, m: Metadata, lock: seq<Locked>, d: Documents, e: InventoryEntry)
    requires Generates(B, m, lock, Some(d))
    ensures e in d.inventory <==> exists p :: ListsEntry(B, m, lock, p, e)
  {
    var r := IsGiven(B, m, lock, d);
    ResolvedInventory(B, r, d, e);
    ListedEntry(B, m, lock, r, d, e);
  }

  // ----- What the packages depend on -----

  function Referring(B: Naming, ps: seq<Package>): (s: seq<string>)
    ensures |s| == |ps| && forall i :: 0 <= i < |s| ==> s[i] == B(ps[i].name, ps[i].version, SourceOf(ps[i]))
  {
    seq(|ps|, i requires 0 <= i < |ps| => B(ps[i].name, ps[i].version, SourceOf(ps[i])))
  }

  /** `ps` are the packages that `ids` name, one by one. */
  predicate AreNamed(m: Metadata, ids: seq<Id>, ps: seq<Package>) {
    |ps| == |ids| && forall i :: 0 <= i < |ps| ==> ps[i] in m.packages && ps[i].id == ids[i]
  }

  /** The entry refers to the package, and to each package that its node names. */
  ghost predicate EntryOf(B: Naming, m: Metadata, p: Package, x: Dependency) {
    && x.ref == B(p.name, p.version, SourceOf(p))
    && exists n, ps ::
         n in m.nodes && n.id == p.id && AreNamed(m, n.dependencies, ps) && multiset(x.dependsOn) == multiset(Referring(B, ps))
  }

  lemma {:induction false} RefsAre(B: Naming, packages: map<Id, Package>, ids: seq<Id>, i: nat)
    requires i < |ids|
    ensures |Refs(B, packages, ids)| == |ids| && Refs(B, packages, ids)[i] == RefOf(B, packages, ids[i])
  {
    var before := ids[..|ids| - 1];
    if i < |before| {
      RefsAre(B, packages, before, i);
    } else if before != [] {
      RefsAre(B, packages, before, 0);
    }
  }

  lemma RefsReferTo(B: Naming, m: Metadata, packages: map<Id, Package>, ids: seq<Id>) returns (ps: seq<Package>)
    requires PackagesFrom(packages, m.packages) && forall id :: id in ids ==> id in packages
    ensures AreNamed(m, ids, ps) && Refs(B, packages, ids) == Referring(B, ps)
  {
    ps := seq(|ids|, i requires 0 <= i < |ids| => packages[ids[i]]);
    var refs, names := Refs(B, packages, ids), Referring(B, ps);
    if ids != [] {
      RefsAre(B, packages, ids, 0);
      forall i: nat | i < |ids| ensures refs[i] == names[i] {
        RefsAre(B, packages, ids, i);
      }
    }
    assert refs == names;
  }

  lemma DependencyRefers(B: Naming, m: Metadata, lock: seq<Locked>, r: Resolution, d: Documents, id: Id)
    requires Given(B, m, lock, r, d) && id in r.packages
    ensures EntryOf(B, m, r.packages[id], DependencyOf(B, r, id))
  {
    var n := r.nodes[id];
    forall b | b in n.dependencies ensures b in r.packages {
      DependenciesAreReached(m, lock, r, id, b);
    }
    var ps := RefsReferTo(B, m, r.packages, n.dependencies);
    SortPermutes(StringOrder(), Refs(B, r.packages, n.dependencies));
    assert n in m.nodes && n.id == r.packages[id].id;
  }

  /** There is one entry for each package that the root reaches. */
  lemma DependenciesList(B: Naming, m: Metadata, lock: seq<Locked>, d: Documents, p: Package, x: Dependency)
    requires Generates(B, m, lock, Some(d))
    ensures p in m.packages && Reaches(m.nodes, m.root, p.id) ==>
      exists y :: y in d.sbom.dependencies && EntryOf(B, m, p, y)
    ensures x in d.sbom.dependencies ==>
      exists q :: q in m.packages && Reaches(m.nodes, m.root, q.id) && EntryOf(B, m, q, x)
  {
    var r := IsGiven(B, m, lock, d);
    if p in m.packages && Reaches(m.nodes, m.root, p.id) {
      ResolvedPackage(m, lock, r, p);
      DependencyRefers(B, m, lock, r, d, p.id);
      var y := DependencyOf(B, r, p.id);
      EntryIsThere(B, r, d, p.id);
    }
    if x in d.sbom.dependencies {
      var id := EntryComesFrom(B, r, d, x);
      DependencyRefers(B, m, lock, r, d, id);
      assert r.packages[id] in m.packages && r.packages[id].id == id;
    }
  }

  lemma EntryIsThere(B: Naming, r: Resolution, d: Documents, id: Id)
    requires Documented(B, r, d) && id in r.packages
    ensures DependencyOf(B, r, id) in d.sbom.dependencies
  {
    var ids :| Enumerates(ids, r.packages.Keys) && IsBuiltFrom(B, r, ids, d);
    var sorted := Sort(KeyOrder(r.packages), ids);
    EnumeratesSorted(r, ids, KeyOrder(r.packages));
    EnumeratesSorted(r, sorted, RefOrder(B, r.packages));
    var byRef := Sort(RefOrder(B, r.packages), sorted);
    var k :| 0 <= k < |byRef| && byRef[k] == id;
    DependenciesAt(B, r, byRef, k);
  }

  lemma EntryComesFrom(B: Naming, r: Resolution, d: Documents, x: Dependency) returns (id: Id)
    requires Documented(B, r, d) && x in d.sbom.dependencies
    ensures id in r.packages && x == DependencyOf(B, r, id)
  {
    var ids :| Enumerates(ids, r.packages.Keys) && IsBuiltFrom(B, r, ids, d);
    var sorted := Sort(KeyOrder(r.packages), ids);
    EnumeratesSorted(r, ids, KeyOrder(r.packages));
    EnumeratesSorted(r, sorted, RefOrder(B, r.packages));
    var byRef := Sort(RefOrder(B, r.packages), sorted);
    var k :| 0 <= k < |d.sbom.dependencies| && d.sbom.dependencies[k] == x;
    if byRef != [] {
      DependenciesAt(B, r, byRef, 0);
    }
    DependenciesAt(B, r, byRef, k);
    id := byRef[k];
  }

  // ----- In which order -----

  /** By name, then version, then source. */
  ghost predicate ComesBefore(a: Component, b: Component) {
    PathBefore([a.name, a.version, a.source], [b.name, b.version, b.source])
  }

  lemma KeyMeans(B: Naming, r: Resolution, a: Id, b: Id)
    requires Complete(r) && a in r.packages && b in r.packages && KeyOrder(r.packages)(a, b)
    ensures ComesBefore(ComponentOf(B, r, a), ComponentOf(B, r, b))
  {
    PathOrderMeans(KeyOf(r.packages, a), KeyOf(r.packages, b));
  }

  /** What comes before the last package is before it. */
  lemma LastComesLast(B: Naming, r: Resolution, ids: seq<Id>, id: Id)
    requires Complete(r) && AllResolved(r, ids) && Sorted(KeyOrder(r.packages), ids)
    requires ids != [] && id in ids[..|ids| - 1]
    ensures id in r.packages && ids[|ids| - 1] in r.packages
    ensures ComesBefore(ComponentOf(B, r, id), ComponentOf(B, r, ids[|ids| - 1]))
  {
    var k :| 0 <= k < |ids| - 1 && ids[k] == id;
    assert KeyOrder(r.packages)(ids[k], ids[|ids| - 1]);
    KeyMeans(B, r, id, ids[|ids| - 1]);
  }

  ghost predicate ComponentsInOrder(cs: seq<Component>) {
    forall i, j :: 0 <= i < j < |cs| ==> ComesBefore(cs[i], cs[j])
  }

  ghost predicate EntriesInOrder(es: seq<InventoryEntry>) {
    forall i, j :: 0 <= i < j < |es| ==> ComesBefore(es[i].component, es[j].component)
  }

  ghost predicate StringsInOrder(s: seq<string>) {
    forall i, j :: 0 <= i < j < |s| ==> StringBefore(s[i], s[j])
  }

  ghost predicate DependenciesInOrder(ds: seq<Dependency>) {
    && (forall i, j :: 0 <= i < j < |ds| ==> StringBefore(ds[i].ref, ds[j].ref))
    && forall k :: 0 <= k < |ds| ==> StringsInOrder(ds[k].dependsOn)
  }

  lemma {:induction false} ComponentsOrdered(B: Naming, r: Resolution, ids: seq<Id>)
    requires Complete(r) && AllResolved(r, ids) && Sorted(KeyOrder(r.packages), ids)
    ensures ComponentsInOrder(Components(B, r, ids))
  {
    if ids != [] {
      var before, last := ids[..|ids| - 1], ids[|ids| - 1];
      ComponentsOrdered(B, r, before);
      var cs := Components(B, r, before);
      forall i | 0 <= i < |cs| ensures ComesBefore(cs[i], ComponentOf(B, r, last)) {
        assert cs[i] in cs;
        ComponentsAreOf(B, r, before, cs[i]);
        var id :| id in before && id != r.root && cs[i] == ComponentOf(B, r, id);
        LastComesLast(B, r, ids, id);
      }
      OneMoreComponent(cs, ComponentOf(B, r, last));
    }
  }

  lemma OneMoreComponent(cs: seq<Component>, c: Component)
    requires ComponentsInOrder(cs) && forall i :: 0 <= i < |cs| ==> ComesBefore(cs[i], c)
    ensures ComponentsInOrder(cs + [c]) && cs + [] == cs
  {
  }

  lemma {:induction false} InventoryOrdered(B: Naming, r: Resolution, ids: seq<Id>)
    requires Complete(r) && AllResolved(r, ids) && Sorted(KeyOrder(r.packages), ids)
    ensures EntriesInOrder(Inventory(B, r, ids))
  {
    if ids != [] {
      var before, last := ids[..|ids| - 1], ids[|ids| - 1];
      InventoryOrdered(B, r, before);
      var es := Inventory(B, r, before);
      var entry := InventoryEntry(ComponentOf(B, r, last), last in r.nodes[r.root].dependencies);
      forall i | 0 <= i < |es| ensures ComesBefore(es[i].component, entry.component) {
        assert es[i] in es;
        InventoryIsOf(B, r, before, es[i]);
        var id :| id in before && id !in r.members && es[i].component == ComponentOf(B, r, id);
        LastComesLast(B, r, ids, id);
      }
      OneMoreEntry(es, entry);
    }
  }

  lemma OneMoreEntry(es: seq<InventoryEntry>, e: InventoryEntry)
    requires EntriesInOrder(es) && forall i :: 0 <= i < |es| ==> ComesBefore(es[i].component, e.component)
    ensures EntriesInOrder(es + [e]) && es + [] == es
  {
  }

  /** Components and inventory come in the order of name, version and source; dependency
    * entries, and the references in each, in the order of the references. */
  ghost predicate InOrder(d: Documents) {
    var cs, es, ds := d.sbom.components, d.inventory, d.sbom.dependencies;
    ComponentsInOrder(cs) && EntriesInOrder(es) && DependenciesInOrder(ds)
  }

  lemma DocumentsAreOrdered(B: Naming, m: Metadata, lock: seq<Locked>, d: Documents)
    requires Generates(B, m, lock, Some(d))
    ensures InOrder(d)
  {
    var r := IsGiven(B, m, lock, d);
    var ids :| Enumerates(ids, r.packages.Keys) && IsBuiltFrom(B, r, ids, d);
    KeyOrderIsTotal(r.packages);
    SortSorts(KeyOrder(r.packages), ids);
    BuiltInOrder(B, r, Sort(KeyOrder(r.packages), ids));
  }

  lemma BuiltInOrder(B: Naming, r: Resolution, ids: seq<Id>)
    requires Complete(r) && AllResolved(r, ids) && Sorted(KeyOrder(r.packages), ids)
    ensures InOrder(BuiltFrom(B, r, ids))
  {
    ComponentsOrdered(B, r, ids);
    InventoryOrdered(B, r, ids);
    SortedAreResolved(r, RefOrder(B, r.packages), ids);
    DependenciesOrdered(B, r, ids);
  }

  lemma DependenciesOrdered(B: Naming, r: Resolution, ids: seq<Id>)
    requires Complete(r) && AllResolved(r, ids) && AllResolved(r, Sort(RefOrder(B, r.packages), ids))
    ensures
      DependenciesInOrder(Dependencies(B, r, Sort(RefOrder(B, r.packages), ids)))
  {
    var le := RefOrder(B, r.packages);
    var byRef := Sort(le, ids);
    var ds := Dependencies(B, r, byRef);
    RefOrderIsTotal(B, r.packages);
    SortSorts(le, ids);
    StringOrderIsTotal();
    forall k: nat | k < |byRef| ensures |ds| == |byRef| && ds[k] == DependencyOf(B, r, byRef[k]) {
      DependenciesAt(B, r, byRef, k);
    }
    forall i, j | 0 <= i < j < |byRef| ensures StringBefore(ds[i].ref, ds[j].ref) {
      assert le(byRef[i], byRef[j]);
      StringOrderMeans(ds[i].ref, ds[j].ref);
    }
    forall k | 0 <= k < |byRef| ensures StringsInOrder(ds[k].dependsOn) {
      SortSorts(StringOrder(), Refs(B, r.packages, r.nodes[byRef[k]].dependencies));
      SortedStrings(ds[k].dependsOn);
    }
  }

  lemma SortedStrings(s: seq<string>)
    requires Sorted(StringOrder(), s)
    ensures StringsInOrder(s)
  {
    forall i, j | 0 <= i < j < |s| ensures StringBefore(s[i], s[j]) {
      assert StringOrder()(s[i], s[j]);
      StringOrderMeans(s[i], s[j]);
    }
  }

  lemma RefOrderIsTotal(B: Naming, packages: map<Id, Package>)
    ensures TotalPreorder(RefOrder(B, packages))
  {
    StringOrderIsTotal();
    var le := StringOrder();
    forall a, b ensures RefOrder(B, packages)(a, b) || RefOrder(B, packages)(b, a) {
      assert le(RefOf(B, packages, a), RefOf(B, packages, b)) || le(RefOf(B, packages, b), RefOf(B, packages, a));
    }
    forall a, b, c | RefOrder(B, packages)(a, b) && RefOrder(B, packages)(b, c) ensures RefOrder(B, packages)(a, c) {
      assert le(RefOf(B, packages, a), RefOf(B, packages, b)) && le(RefOf(B, packages, b), RefOf(B, packages, c));
    }
  }
}
