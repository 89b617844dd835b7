/** What the release documents promise: references that resolve, and documents that do not
  * depend on the order of their inputs.
  */
module ReleaseOrder {
  import opened Orders
  import opened ReleaseMetadata
  import opened ReleaseDocuments
  import opened Wrappers

  // ----- References resolve -----

  predicate NamesComponent(d: Documents, ref: string) {
    ref == d.sbom.root.ref || exists i :: 0 <= i < |d.sbom.components| && d.sbom.components[i].ref == ref
  }

  lemma {:induction false} ComponentsName(B: Naming, r: Resolution, ids: seq<Id>, id: Id)
    requires Complete(r) && AllResolved(r, ids) && id in ids && id != r.root
    ensures exists i :: 0 <= i < |Components(B, r, ids)| && Components(B, r, ids)[i].ref == RefOf(B, r.packages, id)
  {
    var before, last := ids[..|ids| - 1], ids[|ids| - 1];
    assert AllResolved(r, before);
    if id == last {
      var cs := Components(B, r, ids);
      assert cs[|cs| - 1] == ComponentOf(B, r, id);
    } else {
      ComponentsName(B, r, before, id);
      var i :| 0 <= i < |Components(B, r, before)| && Components(B, r, before)[i].ref == RefOf(B, r.packages, id);
      assert Components(B, r, ids)[i] == Components(B, r, before)[i];
    }
  }

  lemma {:induction false} RefsCome(B: Naming, packages: map<Id, Package>, ids: seq<Id>, ref: string) returns (id: Id)
    requires ref in Refs(B, packages, ids)
    ensures id in ids && ref == RefOf(B, packages, id)
  {
    var before, last := ids[..|ids| - 1], ids[|ids| - 1];
    if ref in Refs(B, packages, before) {
      id := RefsCome(B, packages, before, ref);
    } else {
      id := last;
    }
  }

  lemma {:induction false} DependenciesAt(B: Naming, r: Resolution, ids: seq<Id>, k: nat)
    requires Complete(r) && AllResolved(r, ids) && k < |ids|
    ensures |Dependencies(B, r, ids)| == |ids| && Dependencies(B, r, ids)[k] == DependencyOf(B, r, ids[k])
  {
    var before := ids[..|ids| - 1];
    assert AllResolved(r, before);
    if k < |before| {
      DependenciesAt(B, r, before, k);
    } else if before != [] {
      DependenciesAt(B, r, before, 0);
    }
  }

  /** What a reached package depends on is reached. */
  lemma DependenciesAreReached(m: Metadata, lock: seq<Locked>, r: Resolution, a: Id, b: Id)
    requires IsResolution(m, lock, r) && a in r.nodes && b in r.nodes[a].dependencies
    ensures b in r.packages
  {
    var i :| 0 <= i < |m.nodes| && m.nodes[i] == r.nodes[a];
    assert Edge(m.nodes, a, b);
    ReachesFurther(m.nodes, m.root, a, b);
  }

  lemma RefIsNamed(B: Naming, r: Resolution, ids: seq<Id>, id: Id)
    requires Complete(r) && AllResolved(r, ids) && id in r.packages && (id != r.root ==> id in ids)
    ensures NamesComponent(BuiltFrom(B, r, ids), RefOf(B, r.packages, id))
  {
    if id != r.root {
      ComponentsName(B, r, ids, id);
    }
  }

  lemma EnumeratesSorted(r: Resolution, ids: seq<Id>, le: (Id, Id) -> bool)
    requires Enumerates(ids, r.packages.Keys)
    ensures Enumerates(Sort(le, ids), r.packages.Keys) && AllResolved(r, Sort(le, ids))
    ensures forall id :: id in r.packages <==> id in Sort(le, ids)
  {
    SortPermutes(le, ids);
    EnumeratedAreResolved(r, Sort(le, ids));
    forall id ensures id in r.packages <==> id in Sort(le, ids) {
      assert id in multiset(r.packages.Keys) <==> id in multiset(Sort(le, ids));
    }
  }

  /** There is one dependency entry per package; its own reference and everything it
    * depends on name components of the document. */
  lemma ReferencesResolve(B: Naming, m: Metadata, lock: seq<Locked>, r: Resolution, d: Documents, k: nat)
    requires IsResolution(m, lock, r) && Documented(B, r, d)
    ensures |d.sbom.dependencies| == |r.packages|
    ensures k < |d.sbom.dependencies| ==>
      && NamesComponent(d, d.sbom.dependencies[k].ref)
      && forall ref :: ref in d.sbom.dependencies[k].dependsOn ==> NamesComponent(d, ref)
  {
    var ids :| Enumerates(ids, r.packages.Keys) && IsBuiltFrom(B, r, ids, d);
    var sorted := Sort(KeyOrder(r.packages), ids);
    EnumeratesSorted(r, ids, KeyOrder(r.packages));
    var le := RefOrder(B, r.packages);
    var byRef := Sort(le, sorted);
    EnumeratesSorted(r, sorted, le);
    assert |multiset(byRef)| == |byRef| && |multiset(r.packages.Keys)| == |r.packages|;
    if byRef != [] {
      DependenciesAt(B, r, byRef, 0);
    }
    if k < |byRef| {
      DependenciesAt(B, r, byRef, k);
      var id := byRef[k];
      assert id in byRef;
      RefIsNamed(B, r, sorted, id);
      var deps := r.nodes[id].dependencies;
      var refs := Refs(B, r.packages, deps);
      SortPermutes(StringOrder(), refs);
      SameMultisetSameMembers(refs, Sort(StringOrder(), refs));
      forall ref | ref in d.sbom.dependencies[k].dependsOn ensures NamesComponent(d, ref) {
        var b := RefsCome(B, r.packages, deps, ref);
        DependenciesAreReached(m, lock, r, id, b);
        RefIsNamed(B, r, sorted, b);
      }
    }
  }

  lemma {:induction false} ComponentsAreOf(B: Naming, r: Resolution, ids: seq<Id>, c: Component)
    requires Complete(r) && AllResolved(r, ids)
    ensures c in Components(B, r, ids) <==> exists id :: id in ids && id != r.root && c == ComponentOf(B, r, id)
  {
    if ids != [] {
      var before, last := ids[..|ids| - 1], ids[|ids| - 1];
      assert AllResolved(r, before);
      ComponentsAreOf(B, r, before, c);
      assert ids == before + [last];
    }
  }

  lemma {:induction false} InventoryIsOf(B: Naming, r: Resolution, ids: seq<Id>, e: InventoryEntry)
    requires Complete(r) && AllResolved(r, ids)
    ensures e in Inventory(B, r, ids) <==>
      exists id :: id in ids && id !in r.members && e.component == ComponentOf(B, r, id)
                   && (e.direct <==> id in r.nodes[r.root].dependencies)
  {
    if ids != [] {
      var before, last := ids[..|ids| - 1], ids[|ids| - 1];
      assert AllResolved(r, before);
      InventoryIsOf(B, r, before, e);
      assert ids == before + [last];
    }
  }

  lemma ResolvedComponents(B: Naming, r: Resolution, d: Documents, c: Component)
    requires Documented(B, r, d)
    ensures c in d.sbom.components <==> exists id :: id in r.packages && id != r.root && c == ComponentOf(B, r, id)
    ensures d.sbom.root == d.inventoryRoot == ComponentOf(B, r, r.root)
  {
    var ids :| Enumerates(ids, r.packages.Keys) && IsBuiltFrom(B, r, ids, d);
    EnumeratesSorted(r, ids, KeyOrder(r.packages));
    ComponentsAreOf(B, r, Sort(KeyOrder(r.packages), ids), c);
  }

  lemma ResolvedInventory(B: Naming, r: Resolution, d: Documents, e: InventoryEntry)
    requires Documented(B, r, d)
    ensures e in d.inventory <==>
      exists id :: id in r.packages && id !in r.members && e.component == ComponentOf(B, r, id)
                   && (e.direct <==> id in r.nodes[r.root].dependencies)
  {
    var ids :| Enumerates(ids, r.packages.Keys) && IsBuiltFrom(B, r, ids, d);
    EnumeratesSorted(r, ids, KeyOrder(r.packages));
    InventoryIsOf(B, r, Sort(KeyOrder(r.packages), ids), e);
  }

  // ----- The order of the inputs -----

  /** No two packages share name, version and source identity. */
  predicate DistinctKeys(r: Resolution) {
    forall a, b :: a in r.packages && b in r.packages && r.packages[a].SortKey() == r.packages[b].SortKey() ==> a == b
  }

  /** Two resolutions that differ at most in the order of dependency lists. */
  predicate SameResolution(r: Resolution, s: Resolution) {
    && r.packages == s.packages && r.root == s.root && r.members == s.members && r.checksums == s.checksums
    && r.nodes.Keys == s.nodes.Keys
    && forall id :: id in r.nodes ==> multiset(r.nodes[id].dependencies) == multiset(s.nodes[id].dependencies)
  }

  lemma {:induction false} RefsConcat(B: Naming, packages: map<Id, Package>, a: seq<Id>, b: seq<Id>)
    ensures Refs(B, packages, a + b) == Refs(B, packages, a) + Refs(B, packages, b)
  {
    if b == [] {
      assert a + b == a;
    } else {
      assert (a + b)[..|a + b| - 1] == a + b[..|b| - 1];
      RefsConcat(B, packages, a, b[..|b| - 1]);
    }
  }

  lemma RefsAround(B: Naming, packages: map<Id, Package>, x: seq<Id>, e: Id, y: seq<Id>)
    ensures multiset(Refs(B, packages, x + [e] + y))
      == multiset{RefOf(B, packages, e)} + multiset(Refs(B, packages, x + y))
  {
    RefsConcat(B, packages, x + [e], y);
    assert (x + [e])[..|x|] == x;
    RefsConcat(B, packages, x, y);
  }

  lemma {:induction false} RefsPermutation(B: Naming, packages: map<Id, Package>, a: seq<Id>, b: seq<Id>)
    requires multiset(a) == multiset(b)
    ensures multiset(Refs(B, packages, a)) == multiset(Refs(B, packages, b))
    decreases |a|
  {
    SameMultisetSameMembers(a, b);
    if a == [] {
      assert b == [];
    } else {
      var e := a[0];
      var w, x := SplitAround(a, e);
      var y, z := SplitAround(b, e);
      RefsPermutation(B, packages, w + x, y + z);
      RefsAround(B, packages, w, e, x);
      RefsAround(B, packages, y, e, z);
    }
  }

  lemma DependsOnForgetsOrder(B: Naming, packages: map<Id, Package>, a: seq<Id>, b: seq<Id>)
    requires multiset(a) == multiset(b)
    ensures Sort(StringOrder(), Refs(B, packages, a)) == Sort(StringOrder(), Refs(B, packages, b))
  {
    RefsPermutation(B, packages, a, b);
    StringOrderIsTotal();
    SortForgetsOrder(StringOrder(), Refs(B, packages, a), Refs(B, packages, b));
  }

  lemma {:induction false} PartsAgree(B: Naming, r: Resolution, s: Resolution, ids: seq<Id>)
    requires Complete(r) && Complete(s) && SameResolution(r, s) && AllResolved(r, ids)
    ensures Components(B, r, ids) == Components(B, s, ids)
    ensures Dependencies(B, r, ids) == Dependencies(B, s, ids)
    ensures Inventory(B, r, ids) == Inventory(B, s, ids)
  {
    if ids != [] {
      var before, last := ids[..|ids| - 1], ids[|ids| - 1];
      assert AllResolved(r, before);
      PartsAgree(B, r, s, before);
      DependsOnForgetsOrder(B, r.packages, r.nodes[last].dependencies, s.nodes[last].dependencies);
      SameMultisetSameMembers(r.nodes[r.root].dependencies, s.nodes[r.root].dependencies);
    }
  }

  lemma KeysTieFree(r: Resolution, ids: seq<Id>)
    requires DistinctKeys(r) && AllResolved(r, ids)
    ensures TieFree(KeyOrder(r.packages), ids)
  {
    PathOrderIsTotal();
    var le := KeyOrder(r.packages);
    forall a, b | a in ids && b in ids && le(a, b) && le(b, a) ensures a == b {
      assert PathOrder()(KeyOf(r.packages, a), KeyOf(r.packages, b)) && PathOrder()(KeyOf(r.packages, b), KeyOf(r.packages, a));
    }
  }

  /** The documents of one resolution, whatever order its set of packages comes in, and
    * whatever order its dependency lists are in. */
  lemma SameResolutionSameDocuments(B: Naming, r: Resolution, s: Resolution, d: Documents, e: Documents)
    requires SameResolution(r, s) && DistinctKeys(r) && Documented(B, r, d) && Documented(B, s, e)
    ensures d == e
  {
    var ids :| Enumerates(ids, r.packages.Keys) && IsBuiltFrom(B, r, ids, d);
    var others :| Enumerates(others, s.packages.Keys) && IsBuiltFrom(B, s, others, e);
    EnumeratedAreResolved(r, ids);
    KeysTieFree(r, ids);
    KeyOrderIsTotal(r.packages);
    SortForgetsOrder(KeyOrder(r.packages), ids, others);
    var sorted := Sort(KeyOrder(r.packages), ids);
    PartsAgree(B, r, s, sorted);
    SortedAreResolved(r, RefOrder(B, r.packages), sorted);
    PartsAgree(B, r, s, Sort(RefOrder(B, r.packages), sorted));
  }

  // ----- Permuted inputs resolve alike -----

  /** A node with its dependencies in no order. */
  function Unordered(n: Node): (Id, multiset<Id>) { (n.id, multiset(n.dependencies)) }

  predicate NodesWithin(ns: seq<Node>, ms: seq<Node>) {
    forall n :: n in ns ==> exists o :: o in ms && Unordered(o) == Unordered(n)
  }

  function AllUnordered(ns: seq<Node>): (us: seq<(Id, multiset<Id>)>)
    ensures |us| == |ns| && forall i :: 0 <= i < |us| ==> us[i] == Unordered(ns[i])
  {
    seq(|ns|, i requires 0 <= i < |ns| => Unordered(ns[i]))
  }

  /** The same packages, nodes, members and locked packages, each list in any order, and
    * each dependency list too. */
  ghost predicate SameInputs(m: Metadata, lock: seq<Locked>, n: Metadata, locked: seq<Locked>) {
    && m.root == n.root && multiset(m.packages) == multiset(n.packages)
    && (forall id :: id in m.members <==> id in n.members)
    && multiset(AllUnordered(m.nodes)) == multiset(AllUnordered(n.nodes))
    && multiset(lock) == multiset(locked)
  }

  lemma SameNodesWithin(ns: seq<Node>, ms: seq<Node>)
    requires multiset(AllUnordered(ns)) == multiset(AllUnordered(ms))
    ensures NodesWithin(ns, ms)
  {
    SameMultisetSameMembers(AllUnordered(ns), AllUnordered(ms));
    forall n | n in ns ensures exists o :: o in ms && Unordered(o) == Unordered(n) {
      var i := Position(ns, n);
      assert AllUnordered(ns)[i] in AllUnordered(ms);
      var j := Position(AllUnordered(ms), Unordered(n));
      assert ms[j] in ms;
    }
  }

  lemma EdgeCarries(ns: seq<Node>, ms: seq<Node>, a: Id, b: Id)
    requires NodesWithin(ns, ms) && Edge(ns, a, b)
    ensures Edge(ms, a, b)
  {
    var i :| 0 <= i < |ns| && ns[i].id == a && b in ns[i].dependencies;
    assert ns[i] in ns;
    var o :| o in ms && Unordered(o) == Unordered(ns[i]);
    assert b in multiset(ns[i].dependencies) && b in multiset(o.dependencies);
    var j :| 0 <= j < |ms| && ms[j] == o;
  }

  lemma ReachesCarries(ns: seq<Node>, ms: seq<Node>, a: Id, b: Id)
    requires NodesWithin(ns, ms) && Reaches(ns, a, b)
    ensures Reaches(ms, a, b)
  {
    var path :| IsPath(ns, path) && path[0] == a && path[|path| - 1] == b;
    forall i | 0 <= i < |path| - 1 ensures Edge(ms, path[i], path[i + 1]) {
      EdgeCarries(ns, ms, path[i], path[i + 1]);
    }
    assert IsPath(ms, path);
  }

  lemma OnePackage(ps: seq<Package>, p: Package, q: Package)
    requires DistinctPackages(ps) && p in ps && q in ps && p.id == q.id
    ensures p == q
  {
    var i :| 0 <= i < |ps| && ps[i] == p;
    var j :| 0 <= j < |ps| && ps[j] == q;
    assert i == j || i < j || j < i;
  }

  lemma OneNode(ns: seq<Node>, p: Node, q: Node)
    requires DistinctNodes(ns) && p in ns && q in ns && p.id == q.id
    ensures p == q
  {
    var i :| 0 <= i < |ns| && ns[i] == p;
    var j :| 0 <= j < |ns| && ns[j] == q;
    assert i == j || i < j || j < i;
  }

  lemma OneChecksum(lock: seq<Locked>, p: Package, c: Option<string>, d: Option<string>)
    requires DistinctLocked(lock) && IsChecksumOf(c, p, lock) && IsChecksumOf(d, p, lock)
    ensures c == d
  {
    var i :| 0 <= i < |lock| && lock[i].LockKey() == p.LockKey() && c == LowerChecksum(lock[i].checksum);
    var j :| 0 <= j < |lock| && lock[j].LockKey() == p.LockKey() && d == LowerChecksum(lock[j].checksum);
    assert i == j || i < j || j < i;
  }

  lemma ChecksumCarries(lock: seq<Locked>, locked: seq<Locked>, p: Package, c: Option<string>)
    requires multiset(lock) == multiset(locked) && IsChecksumOf(c, p, lock)
    ensures IsChecksumOf(c, p, locked)
  {
    var i :| 0 <= i < |lock| && lock[i].LockKey() == p.LockKey() && c == LowerChecksum(lock[i].checksum);
    SameMultisetSameMembers(lock, locked);
    assert lock[i] in locked;
    var j :| 0 <= j < |locked| && locked[j] == lock[i];
  }

  ghost predicate AreReached(ns: seq<Node>, root: Id, ids: set<Id>) {
    forall id :: id in ids <==> Reaches(ns, root, id)
  }

  lemma ReachedCarry(ns: seq<Node>, ms: seq<Node>, root: Id, a: set<Id>, b: set<Id>)
    requires NodesWithin(ns, ms) && AreReached(ns, root, a) && AreReached(ms, root, b)
    ensures a <= b
  {
    forall id | id in a ensures id in b {
      ReachesCarries(ns, ms, root, id);
    }
  }

  lemma SameReached(ns: seq<Node>, ms: seq<Node>, root: Id, a: set<Id>, b: set<Id>)
    requires multiset(AllUnordered(ns)) == multiset(AllUnordered(ms))
    requires AreReached(ns, root, a) && AreReached(ms, root, b)
    ensures a == b
  {
    SameNodesWithin(ns, ms);
    SameNodesWithin(ms, ns);
    ReachedCarry(ns, ms, root, a, b);
    ReachedCarry(ms, ns, root, b, a);
  }

  lemma PackagesAreReached(m: Metadata, lock: seq<Locked>, r: Resolution)
    requires IsResolution(m, lock, r)
    ensures AreReached(m.nodes, m.root, r.packages.Keys)
  {
  }

  lemma SameNodesAt(m: Metadata, n: Metadata, p: Node, q: Node)
    requires NodesWithin(n.nodes, m.nodes) && DistinctNodes(m.nodes) && p in m.nodes && q in n.nodes && p.id == q.id
    ensures multiset(p.dependencies) == multiset(q.dependencies)
  {
    var o :| o in m.nodes && Unordered(o) == Unordered(q);
    OneNode(m.nodes, p, o);
  }

  lemma SameChecksumAt(lock: seq<Locked>, locked: seq<Locked>, p: Package, c: Option<string>, d: Option<string>)
    requires multiset(lock) == multiset(locked) && DistinctLocked(lock)
    requires IsChecksumOf(c, p, lock) && IsChecksumOf(d, p, locked)
    ensures c == d
  {
    ChecksumCarries(locked, lock, p, d);
    OneChecksum(lock, p, c, d);
  }

  lemma SamePackages(a: map<Id, Package>, ps: seq<Package>, b: map<Id, Package>, qs: seq<Package>)
    requires PackagesFrom(a, ps) && PackagesFrom(b, qs) && a.Keys == b.Keys
    requires multiset(ps) == multiset(qs) && DistinctPackages(ps)
    ensures a == b
  {
    SameMultisetSameMembers(ps, qs);
    forall id | id in a ensures a[id] == b[id] {
      OnePackage(ps, a[id], b[id]);
    }
  }

  lemma SameChecksums(m: Metadata, lock: seq<Locked>, r: Resolution, n: Metadata, locked: seq<Locked>, s: Resolution)
    requires IsResolution(m, lock, r) && IsResolution(n, locked, s) && r.packages == s.packages
    requires multiset(lock) == multiset(locked) && DistinctLocked(lock)
    ensures r.checksums == s.checksums
  {
    forall id | id in r.packages ensures r.checksums[id] == s.checksums[id] {
      SameChecksumAt(lock, locked, r.packages[id], r.checksums[id], s.checksums[id]);
    }
  }

  lemma SameNodeLists(m: Metadata, lock: seq<Locked>, r: Resolution, n: Metadata, locked: seq<Locked>, s: Resolution)
    requires IsResolution(m, lock, r) && IsResolution(n, locked, s) && r.packages.Keys == s.packages.Keys
    requires multiset(AllUnordered(n.nodes)) == multiset(AllUnordered(m.nodes)) && DistinctNodes(m.nodes)
    ensures r.nodes.Keys == s.nodes.Keys
    ensures forall id :: id in r.nodes ==> multiset(r.nodes[id].dependencies) == multiset(s.nodes[id].dependencies)
  {
    SameNodesWithin(n.nodes, m.nodes);
    forall id | id in r.nodes ensures multiset(r.nodes[id].dependencies) == multiset(s.nodes[id].dependencies) {
      SameNodesAt(m, n, r.nodes[id], s.nodes[id]);
    }
  }

  lemma SameMembers(m: Metadata, lock: seq<Locked>, r: Resolution, n: Metadata, locked: seq<Locked>, s: Resolution)
    requires IsResolution(m, lock, r) && IsResolution(n, locked, s) && forall id :: id in m.members <==> id in n.members
    ensures r.members == s.members
  {
  }

  lemma PermutedInputsResolveAlike(m: Metadata, lock: seq<Locked>, r: Resolution, n: Metadata, locked: seq<Locked>,
          s: Resolution)
    requires SameInputs(m, lock, n, locked) && IsResolution(m, lock, r) && IsResolution(n, locked, s)
    requires DistinctPackages(m.packages) && DistinctNodes(m.nodes) && DistinctLocked(lock)
    ensures SameResolution(r, s)
  {
    PackagesAreReached(m, lock, r);
    PackagesAreReached(n, locked, s);
    SameReached(m.nodes, n.nodes, m.root, r.packages.Keys, s.packages.Keys);
    SamePackages(r.packages, m.packages, s.packages, n.packages);
    SameChecksums(m, lock, r, n, locked, s);
    SameNodeLists(m, lock, r, n, locked, s);
    SameMembers(m, lock, r, n, locked, s);
  }

  // ----- Permuted inputs are accepted alike -----

  lemma PackagesCarry(ps: seq<Package>, qs: seq<Package>)
    requires multiset(ps) == multiset(qs) && DistinctPackages(ps) && AllLicensed(ps)
    ensures DistinctPackages(qs) && AllLicensed(qs)
  {
    SameMultisetSameMembers(ps, qs);
    DistinctByPermutation((p: Package) => p.id, ps, qs);
    forall i | 0 <= i < |qs| ensures qs[i].license.Some? || qs[i].licenseFile.Some? {
      var k := Position(ps, qs[i]);
    }
  }

  lemma PackageCarries(ps: seq<Package>, qs: seq<Package>, id: Id)
    requires multiset(ps) == multiset(qs) && HasPackage(ps, id)
    ensures HasPackage(qs, id)
  {
    SameMultisetSameMembers(ps, qs);
    var i :| 0 <= i < |ps| && ps[i].id == id;
    assert ps[i] in qs;
    var k := Position(qs, ps[i]);
    assert qs[k].id == id;
  }

  lemma DistinctNodesCarry(ns: seq<Node>, ms: seq<Node>)
    requires multiset(AllUnordered(ns)) == multiset(AllUnordered(ms)) && DistinctNodes(ns)
    ensures DistinctNodes(ms)
  {
    DistinctByPermutation((u: (Id, multiset<Id>)) => u.0, AllUnordered(ns), AllUnordered(ms));
    forall i, j | 0 <= i < j < |ms| ensures ms[i].id != ms[j].id {
      assert AllUnordered(ms)[i].0 != AllUnordered(ms)[j].0;
    }
  }

  lemma KnownCarries(ns: seq<Node>, ps: seq<Package>, ms: seq<Node>, qs: seq<Package>)
    requires NodesWithin(ms, ns) && multiset(ps) == multiset(qs) && NodesKnown(ns, ps)
    ensures NodesKnown(ms, qs)
  {
    forall i | 0 <= i < |ms| ensures HasPackage(qs, ms[i].id) && AllKnown(ms[i].dependencies, qs) {
      assert ms[i] in ms;
      var o :| o in ns && Unordered(o) == Unordered(ms[i]);
      var k := Position(ns, o);
      assert HasPackage(ps, ns[k].id) && AllKnown(ns[k].dependencies, ps);
      PackageCarries(ps, qs, o.id);
      SameMultisetSameMembers(o.dependencies, ms[i].dependencies);
      forall j | 0 <= j < |ms[i].dependencies| ensures HasPackage(qs, ms[i].dependencies[j]) {
        var l := Position(o.dependencies, ms[i].dependencies[j]);
        assert HasPackage(ps, o.dependencies[l]);
        PackageCarries(ps, qs, ms[i].dependencies[j]);
      }
    }
  }

  lemma HasNodeCarries(ns: seq<Node>, ms: seq<Node>, id: Id)
    requires NodesWithin(ns, ms) && HasNode(ns, id)
    ensures HasNode(ms, id)
  {
    var i :| 0 <= i < |ns| && ns[i].id == id;
    assert ns[i] in ns;
    var o :| o in ms && Unordered(o) == Unordered(ns[i]);
    var k := Position(ms, o);
    assert ms[k].id == id;
  }

  lemma GraphCarries(m: Metadata, lock: seq<Locked>, n: Metadata, locked: seq<Locked>)
    requires SameInputs(m, lock, n, locked) && GraphConsistent(m)
    ensures GraphConsistent(n)
  {
    SameNodesWithin(m.nodes, n.nodes);
    SameNodesWithin(n.nodes, m.nodes);
    PackagesCarry(m.packages, n.packages);
    PackageCarries(m.packages, n.packages, m.root);
    DistinctNodesCarry(m.nodes, n.nodes);
    KnownCarries(m.nodes, m.packages, n.nodes, n.packages);
    forall id | Reaches(n.nodes, n.root, id) ensures HasNode(n.nodes, id) {
      ReachesCarries(n.nodes, m.nodes, n.root, id);
      HasNodeCarries(m.nodes, n.nodes, id);
    }
  }

  lemma LockCarries(lock: seq<Locked>, locked: seq<Locked>)
    requires multiset(lock) == multiset(locked) && LockValid(lock)
    ensures LockValid(locked)
  {
    SameMultisetSameMembers(lock, locked);
    DistinctByPermutation((l: Locked) => l.LockKey(), lock, locked);
    forall i | 0 <= i < |locked| ensures ChecksumValid(locked[i].checksum) {
      var k := Position(lock, locked[i]);
    }
  }

  lemma LockedCarries(lock: seq<Locked>, locked: seq<Locked>, key: LockKey)
    requires multiset(lock) == multiset(locked) && HasLocked(lock, key)
    ensures HasLocked(locked, key)
  {
    SameMultisetSameMembers(lock, locked);
    var i :| 0 <= i < |lock| && lock[i].LockKey() == key;
    var k := Position(locked, lock[i]);
    assert locked[k].LockKey() == key;
  }

  lemma ReachedLockedCarries(m: Metadata, lock: seq<Locked>, n: Metadata, locked: seq<Locked>)
    requires SameInputs(m, lock, n, locked) && ReachedAreLocked(m, lock)
    ensures ReachedAreLocked(n, locked)
  {
    SameNodesWithin(n.nodes, m.nodes);
    SameMultisetSameMembers(m.packages, n.packages);
    forall i | 0 <= i < |n.packages| && Reaches(n.nodes, n.root, n.packages[i].id)
      ensures HasLocked(locked, n.packages[i].LockKey())
    {
      ReachesCarries(n.nodes, m.nodes, n.root, n.packages[i].id);
      assert n.packages[i] in m.packages;
      var k := Position(m.packages, n.packages[i]);
      assert HasLocked(lock, m.packages[k].LockKey());
      LockedCarries(lock, locked, n.packages[i].LockKey());
    }
  }

  lemma MembersCarry(m: Metadata, lock: seq<Locked>, n: Metadata, locked: seq<Locked>)
    requires SameInputs(m, lock, n, locked) && AllKnown(m.members, m.packages)
    ensures AllKnown(n.members, n.packages)
  {
    forall i | 0 <= i < |n.members| ensures HasPackage(n.packages, n.members[i]) {
      assert n.members[i] in m.members;
      var k := Position(m.members, n.members[i]);
      assert HasPackage(m.packages, m.members[k]);
      PackageCarries(m.packages, n.packages, n.members[i]);
    }
  }

  lemma AcceptanceCarries(m: Metadata, lock: seq<Locked>, n: Metadata, locked: seq<Locked>)
    requires SameInputs(m, lock, n, locked) && Consistent(m, lock)
    ensures Consistent(n, locked)
  {
    GraphCarries(m, lock, n, locked);
    LockCarries(lock, locked);
    ReachedLockedCarries(m, lock, n, locked);
    MembersCarry(m, lock, n, locked);
  }

  /** Whether inputs are accepted does not depend on their order. */
  lemma AcceptanceForgetsOrder(m: Metadata, lock: seq<Locked>, n: Metadata, locked: seq<Locked>)
    requires SameInputs(m, lock, n, locked)
    ensures Consistent(m, lock) <==> Consistent(n, locked)
  {
    if Consistent(m, lock) {
      AcceptanceCarries(m, lock, n, locked);
    }
    if Consistent(n, locked) {
      AcceptanceCarries(n, locked, m, lock);
    }
  }

  /** No two packages that the root reaches share name, version and source identity. */
  ghost predicate ReachedKeysDiffer(m: Metadata) {
    forall p, q ::
      && p in m.packages && Reaches(m.nodes, m.root, p.id) && q in m.packages && Reaches(m.nodes, m.root, q.id)
      && p.SortKey() == q.SortKey()
      ==> p.id == q.id
  }

  lemma ResolvedKeysDiffer(m: Metadata, lock: seq<Locked>, r: Resolution)
    requires ReachedKeysDiffer(m) && IsResolution(m, lock, r)
    ensures DistinctKeys(r)
  {
    forall a, b | a in r.packages && b in r.packages && r.packages[a].SortKey() == r.packages[b].SortKey() ensures a == b {
      assert r.packages[a] in m.packages && r.packages[b] in m.packages;
    }
  }

  /** The script's result, a refusal or both documents, is unchanged when packages, nodes,
    * dependency lists, members or locked packages are permuted, if no two reached packages
    * share name, version and source. */
  lemma DocumentsForgetOrder(
    B: Naming, m: Metadata, lock: seq<Locked>, d: Option<Documents>, n: Metadata, locked: seq<Locked>, e: Option<Documents>)
    requires SameInputs(m, lock, n, locked) && ReachedKeysDiffer(m)
    requires Generates(B, m, lock, d) && Generates(B, n, locked, e)
    ensures d == e
  {
    AcceptanceForgetsOrder(m, lock, n, locked);
    if d.Some? {
      var r :| IsResolution(m, lock, r) && Documented(B, r, d.value);
      var s :| IsResolution(n, locked, s) && Documented(B, s, e.value);
      PermutedInputsResolveAlike(m, lock, r, n, locked, s);
      ResolvedKeysDiffer(m, lock, r);
      SameResolutionSameDocuments(B, r, s, d.value, e.value);
    }
  }
}
