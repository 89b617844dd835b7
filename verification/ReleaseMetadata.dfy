/** The release script's dependency closure and the documents built from it. */
module ReleaseMetadata {
  import opened Orders
  import opened Wrappers

  type Id = string

  // ----- Inputs -----

  /** `local` is the identity of a package without a registry source; `details` stands for
    * the fields that are copied into the documents unchanged. */
  datatype Package = Package(
    id: Id, name: string, version: string, source: Option<string>, local: string,
    license: Option<string>, licenseFile: Option<string>, details: string)
  {
    function SourceIdentity(): string { if source.Some? then source.value else local }

    function LockKey(): (string, string, Option<string>) { (name, version, source) }

    /** What packages are sorted by. */
    function SortKey(): seq<string> { [name, version, SourceIdentity()] }
  }

  datatype Node = Node(id: Id, dependencies: seq<Id>)

  datatype Locked = Locked(name: string, version: string, source: Option<string>, checksum: Option<string>)
  {
    function LockKey(): (string, string, Option<string>) { (name, version, source) }
  }

  datatype Metadata = Metadata(packages: seq<Package>, root: Id, nodes: seq<Node>, members: seq<Id>)

  // ----- Reachability -----

  predicate Edge(ns: seq<Node>, a: Id, b: Id) {
    exists i :: 0 <= i < |ns| && ns[i].id == a && b in ns[i].dependencies
  }

  predicate IsPath(ns: seq<Node>, path: seq<Id>) {
    path != [] && forall i :: 0 <= i < |path| - 1 ==> Edge(ns, path[i], path[i + 1])
  }

  /** The reflexive and transitive closure of the dependency relation. */
  ghost predicate Reaches(ns: seq<Node>, a: Id, b: Id) {
    exists path :: IsPath(ns, path) && path[0] == a && path[|path| - 1] == b
  }

  predicate HasNode(ns: seq<Node>, id: Id) { exists i :: 0 <= i < |ns| && ns[i].id == id }

  predicate DistinctNodes(ns: seq<Node>) { forall i, j :: 0 <= i < j < |ns| ==> ns[i].id != ns[j].id }

  /** The nodes, indexed. */
  predicate Indexes(index: map<Id, Node>, ns: seq<Node>) {
    && (forall i :: 0 <= i < |ns| ==> ns[i].id in index && index[ns[i].id] == ns[i])
    && (forall id :: id in index ==> index[id] in ns && index[id].id == id)
  }

  lemma ReachesItself(ns: seq<Node>, a: Id)
    ensures Reaches(ns, a, a)
  {
    assert IsPath(ns, [a]);
  }

  lemma ReachesFurther(ns: seq<Node>, a: Id, b: Id, c: Id)
    requires Reaches(ns, a, b) && Edge(ns, b, c)
    ensures Reaches(ns, a, c)
  {
    var path :| IsPath(ns, path) && path[0] == a && path[|path| - 1] == b;
    var longer := path + [c];
    forall i | 0 <= i < |longer| - 1 ensures Edge(ns, longer[i], longer[i + 1]) {
      if i < |path| - 1 {
        assert longer[i] == path[i] && longer[i + 1] == path[i + 1];
      }
    }
    assert IsPath(ns, longer);
  }

  /** A set that holds the start and is closed under edges holds everything reached. */
  lemma {:induction false} ClosedHoldsPath(ns: seq<Node>, s: set<Id>, path: seq<Id>, k: nat)
    requires IsPath(ns, path) && k < |path| && path[0] in s
    requires forall a, b :: a in s && Edge(ns, a, b) ==> b in s
    ensures path[k] in s
  {
    if k > 0 {
      ClosedHoldsPath(ns, s, path, k - 1);
      assert Edge(ns, path[k - 1], path[k]);
    }
  }

  lemma ClosedHoldsReached(ns: seq<Node>, s: set<Id>, root: Id)
    requires root in s && forall a, b :: a in s && Edge(ns, a, b) ==> b in s
    ensures forall id :: Reaches(ns, root, id) ==> id in s
  {
    forall id | Reaches(ns, root, id) ensures id in s {
      var path :| IsPath(ns, path) && path[0] == root && path[|path| - 1] == id;
      ClosedHoldsPath(ns, s, path, |path| - 1);
    }
  }

  // ----- The worklist -----

  /** Everything behind or before the worklist is reached; what is behind it has its
    * dependencies behind or before it. */
  ghost predicate Exploring(ns: seq<Node>, index: map<Id, Node>, root: Id, reachable: set<Id>, pending: seq<Id>) {
    && reachable <= index.Keys && (root in reachable || root in pending)
    && (forall id :: id in reachable || id in pending ==> Reaches(ns, root, id))
    && (forall a, b :: a in reachable && b in index[a].dependencies ==> b in reachable || b in pending)
  }

  lemma EdgeIsIndexed(ns: seq<Node>, index: map<Id, Node>, a: Id, b: Id)
    requires Indexes(index, ns)
    ensures Edge(ns, a, b) <==> a in index && b in index[a].dependencies
  {
    if a in index && b in index[a].dependencies {
      var i :| 0 <= i < |ns| && ns[i] == index[a];
      assert ns[i].id == a;
    }
  }

  lemma ExploreOne(ns: seq<Node>, index: map<Id, Node>, root: Id, reachable: set<Id>, pending: seq<Id>)
    requires Indexes(index, ns) && pending != [] && Exploring(ns, index, root, reachable, pending)
    requires var id := pending[|pending| - 1]; id in index && id !in reachable
    ensures
      var id := pending[|pending| - 1];
      Exploring(ns, index, root, reachable + {id}, pending[..|pending| - 1] + index[id].dependencies)
  {
    var id := pending[|pending| - 1];
    var next := pending[..|pending| - 1] + index[id].dependencies;
    assert forall x :: x in pending ==> x == id || x in pending[..|pending| - 1];
    forall x | x in next ensures Reaches(ns, root, x) {
      if x in index[id].dependencies {
        EdgeIsIndexed(ns, index, id, x);
        ReachesFurther(ns, root, id, x);
      }
    }
  }

  lemma SkipOne(ns: seq<Node>, index: map<Id, Node>, root: Id, reachable: set<Id>, pending: seq<Id>)
    requires pending != [] && pending[|pending| - 1] in reachable && Exploring(ns, index, root, reachable, pending)
    ensures Exploring(ns, index, root, reachable, pending[..|pending| - 1])
  {
    assert forall x :: x in pending ==> x == pending[|pending| - 1] || x in pending[..|pending| - 1];
  }

  /** The worklist loop: exactly what the root reaches, unless something it reaches has no
    * node.  It ends on cyclic graphs too. */
  method Closure(ns: seq<Node>, index: map<Id, Node>, root: Id) returns (r: Option<set<Id>>)
    requires Indexes(index, ns)
    ensures r.Some? ==> forall id :: id in r.value <==> Reaches(ns, root, id)
    ensures r.Some? <==> forall id :: Reaches(ns, root, id) ==> id in index
  {
    var reachable: set<Id> := {};
    var pending := [root];
    ReachesItself(ns, root);
    while pending != []
      invariant Exploring(ns, index, root, reachable, pending)
      decreases |index.Keys| - |reachable|, |pending|
    {
      var id := pending[|pending| - 1];
      if id in reachable {
        SkipOne(ns, index, root, reachable, pending);
        pending := pending[..|pending| - 1];
      } else {
        assert id in pending;
        if id !in index {
          return None;
        }
        ExploreOne(ns, index, root, reachable, pending);
        SubsetIsNoLarger(reachable + {id}, index.Keys);
        reachable := reachable + {id};
        pending := pending[..|pending| - 1] + index[id].dependencies;
      }
    }
    forall a, b | a in reachable && Edge(ns, a, b) ensures b in reachable {
      EdgeIsIndexed(ns, index, a, b);
    }
    ClosedHoldsReached(ns, reachable, root);
    return Some(reachable);
  }

  // ----- Indexing the inputs -----

  predicate DistinctPackages(ps: seq<Package>) { forall i, j :: 0 <= i < j < |ps| ==> ps[i].id != ps[j].id }

  predicate AllLicensed(ps: seq<Package>) {
    forall i :: 0 <= i < |ps| ==> ps[i].license.Some? || ps[i].licenseFile.Some?
  }

  predicate HasPackage(ps: seq<Package>, id: Id) { exists i :: 0 <= i < |ps| && ps[i].id == id }

  predicate IndexesPackages(index: map<Id, Package>, ps: seq<Package>) {
    && (forall i :: 0 <= i < |ps| ==> ps[i].id in index && index[ps[i].id] == ps[i])
    && (forall id :: id in index ==> index[id] in ps && index[id].id == id)
  }

  method IndexPackages(ps: seq<Package>) returns (r: Option<map<Id, Package>>)
    ensures r.Some? <==> DistinctPackages(ps) && AllLicensed(ps)
    ensures r.Some? ==> IndexesPackages(r.value, ps)
  {
    var index: map<Id, Package> := map[];
    for i := 0 to |ps|
      invariant DistinctPackages(ps[..i]) && AllLicensed(ps[..i]) && IndexesPackages(index, ps[..i])
    {
      assert ps[..i + 1] == ps[..i] + [ps[i]];
      if ps[i].id in index {
        assert index[ps[i].id] in ps[..i];
        return None;
      }
      if ps[i].license.None? && ps[i].licenseFile.None? {
        return None;
      }
      assert forall k :: 0 <= k < i ==> ps[..i][k].id != ps[i].id;
      index := index[ps[i].id := ps[i]];
    }
    assert ps[..|ps|] == ps;
    return Some(index);
  }

  /** Nodes and their dependencies are packages. */
  predicate NodesKnown(ns: seq<Node>, ps: seq<Package>) {
    forall i :: 0 <= i < |ns| ==> HasPackage(ps, ns[i].id) && AllKnown(ns[i].dependencies, ps)
  }

  predicate AllKnown(ids: seq<Id>, ps: seq<Package>) { forall i :: 0 <= i < |ids| ==> HasPackage(ps, ids[i]) }

  lemma KnownIsIndexed(index: map<Id, Package>, ps: seq<Package>, id: Id)
    requires IndexesPackages(index, ps)
    ensures id in index <==> HasPackage(ps, id)
  {
    if id in index {
      var i :| 0 <= i < |ps| && ps[i] == index[id];
      assert ps[i].id == id;
    }
  }

  method CheckKnown(ids: seq<Id>, packages: map<Id, Package>, ps: seq<Package>) returns (ok: bool)
    requires IndexesPackages(packages, ps)
    ensures ok <==> AllKnown(ids, ps)
  {
    for i := 0 to |ids|
      invariant forall k :: 0 <= k < i ==> HasPackage(ps, ids[k])
    {
      KnownIsIndexed(packages, ps, ids[i]);
      if ids[i] !in packages {
        return false;
      }
    }
    return true;
  }

  method IndexNodes(ns: seq<Node>, packages: map<Id, Package>, ps: seq<Package>) returns (r: Option<map<Id, Node>>)
    requires IndexesPackages(packages, ps)
    ensures r.Some? <==> DistinctNodes(ns) && NodesKnown(ns, ps)
    ensures r.Some? ==> Indexes(r.value, ns)
  {
    var index: map<Id, Node> := map[];
    for i := 0 to |ns|
      invariant DistinctNodes(ns[..i]) && NodesKnown(ns[..i], ps) && Indexes(index, ns[..i])
    {
      assert ns[..i + 1] == ns[..i] + [ns[i]];
      KnownIsIndexed(packages, ps, ns[i].id);
      if ns[i].id !in packages {
        return None;
      }
      if ns[i].id in index {
        assert index[ns[i].id] in ns[..i];
        return None;
      }
      assert forall k :: 0 <= k < i ==> ns[..i][k].id != ns[i].id;
      var known := CheckKnown(ns[i].dependencies, packages, ps);
      if !known {
        return None;
      }
      index := index[ns[i].id := ns[i]];
    }
    assert ns[..|ns|] == ns;
    return Some(index);
  }

  // ----- The lock file -----

  type LockKey = (string, string, Option<string>)

  predicate HexDigit(c: char) { '0' <= c <= '9' || 'a' <= c <= 'f' || 'A' <= c <= 'F' }

  predicate ChecksumValid(c: Option<string>) {
    c.Some? ==> |c.value| == 64 && forall i :: 0 <= i < 64 ==> HexDigit(c.value[i])
  }

  function LowerChar(c: char): char { if 'A' <= c <= 'Z' then c - 'A' + 'a' else c }

  function Lower(s: string): string { seq(|s|, i requires 0 <= i < |s| => LowerChar(s[i])) }

  function LowerChecksum(c: Option<string>): Option<string> { if c.Some? then Some(Lower(c.value)) else None }

  predicate DistinctLocked(ls: seq<Locked>) { forall i, j :: 0 <= i < j < |ls| ==> ls[i].LockKey() != ls[j].LockKey() }

  predicate LockValid(ls: seq<Locked>) {
    DistinctLocked(ls) && forall i :: 0 <= i < |ls| ==> ChecksumValid(ls[i].checksum)
  }

  predicate IndexesLock(index: map<LockKey, Option<string>>, ls: seq<Locked>) {
    && (forall i :: 0 <= i < |ls| ==> ls[i].LockKey() in index && index[ls[i].LockKey()] == LowerChecksum(ls[i].checksum))
    && (forall k :: k in index ==> HasLocked(ls, k))
  }

  predicate HasLocked(ls: seq<Locked>, k: LockKey) { exists i :: 0 <= i < |ls| && ls[i].LockKey() == k }

  /** `_lock_index`. */
  method LockIndex(ls: seq<Locked>) returns (r: Option<map<LockKey, Option<string>>>)
    ensures r.Some? <==> LockValid(ls)
    ensures r.Some? ==> IndexesLock(r.value, ls)
  {
    var index: map<LockKey, Option<string>> := map[];
    for i := 0 to |ls|
      invariant LockValid(ls[..i]) && IndexesLock(index, ls[..i])
    {
      assert ls[..i + 1] == ls[..i] + [ls[i]];
      var key := ls[i].LockKey();
      if key in index {
        assert HasLocked(ls[..i], key);
        return None;
      }
      if !ChecksumValid(ls[i].checksum) {
        return None;
      }
      LockGrows(ls[..i], ls[i], index);
      index := index[key := LowerChecksum(ls[i].checksum)];
    }
    assert ls[..|ls|] == ls;
    return Some(index);
  }

  lemma LockGrows(ls: seq<Locked>, l: Locked, index: map<LockKey, Option<string>>)
    requires LockValid(ls) && IndexesLock(index, ls) && l.LockKey() !in index && ChecksumValid(l.checksum)
    ensures LockValid(ls + [l]) && IndexesLock(index[l.LockKey() := LowerChecksum(l.checksum)], ls + [l])
  {
    var grown := ls + [l];
    assert forall k :: 0 <= k < |ls| ==> ls[k].LockKey() != l.LockKey();
    assert grown[|ls|] == l;
    forall k | HasLocked(ls, k) ensures HasLocked(grown, k) {
      var i :| 0 <= i < |ls| && ls[i].LockKey() == k;
      assert grown[i] == ls[i];
    }
  }

  // ----- Resolving -----

  datatype Resolution = Resolution(
    packages: map<Id, Package>, nodes: map<Id, Node>, root: Id, members: set<Id>, checksums: map<Id, Option<string>>)

  ghost predicate ReachedAreLocked(m: Metadata, lock: seq<Locked>) {
    forall i :: 0 <= i < |m.packages| && Reaches(m.nodes, m.root, m.packages[i].id) ==>
      HasLocked(lock, m.packages[i].LockKey())
  }

  ghost predicate ReachedHaveNodes(m: Metadata) {
    forall id :: Reaches(m.nodes, m.root, id) ==> HasNode(m.nodes, id)
  }

  ghost predicate GraphConsistent(m: Metadata) {
    && DistinctPackages(m.packages) && AllLicensed(m.packages) && HasPackage(m.packages, m.root)
    && DistinctNodes(m.nodes) && NodesKnown(m.nodes, m.packages) && ReachedHaveNodes(m)
  }

  /** Inputs the script accepts. */
  ghost predicate Consistent(m: Metadata, lock: seq<Locked>) {
    && GraphConsistent(m) && LockValid(lock) && ReachedAreLocked(m, lock) && AllKnown(m.members, m.packages)
  }

  predicate PackagesFrom(index: map<Id, Package>, ps: seq<Package>) {
    forall id :: id in index ==> index[id] in ps && index[id].id == id
  }

  /** What the root reaches, with its packages, nodes and locked checksums. */
  ghost predicate IsResolution(m: Metadata, lock: seq<Locked>, r: Resolution) {
    && r.root == m.root && r.members == (set id | id in m.members)
    && r.packages.Keys == r.nodes.Keys == r.checksums.Keys
    && (forall id :: id in r.packages <==> Reaches(m.nodes, m.root, id))
    && PackagesFrom(r.packages, m.packages)
    && (forall id :: id in r.nodes ==> r.nodes[id] in m.nodes && r.nodes[id].id == id)
    && (forall id :: id in r.checksums ==> IsChecksumOf(r.checksums[id], r.packages[id], lock))
  }

  predicate IsChecksumOf(checksum: Option<string>, p: Package, lock: seq<Locked>) {
    exists i :: 0 <= i < |lock| && lock[i].LockKey() == p.LockKey() && checksum == LowerChecksum(lock[i].checksum)
  }

  lemma NodeIsIndexed(index: map<Id, Node>, ns: seq<Node>, id: Id)
    requires Indexes(index, ns)
    ensures id in index <==> HasNode(ns, id)
  {
    if id in index {
      var i :| 0 <= i < |ns| && ns[i] == index[id];
      assert ns[i].id == id;
    }
  }

  /** Everything reached is a package. */
  lemma ReachedArePackages(m: Metadata)
    requires HasPackage(m.packages, m.root) && NodesKnown(m.nodes, m.packages)
    ensures forall id :: Reaches(m.nodes, m.root, id) ==> HasPackage(m.packages, id)
  {
    forall id | Reaches(m.nodes, m.root, id) ensures HasPackage(m.packages, id) {
      var path :| IsPath(m.nodes, path) && path[0] == m.root && path[|path| - 1] == id;
      if |path| > 1 {
        assert Edge(m.nodes, path[|path| - 2], path[|path| - 2 + 1]);
        var i :| 0 <= i < |m.nodes| && m.nodes[i].id == path[|path| - 2] && id in m.nodes[i].dependencies;
        var k :| 0 <= k < |m.nodes[i].dependencies| && m.nodes[i].dependencies[k] == id;
        assert HasPackage(m.packages, m.nodes[i].dependencies[k]);
      }
    }
  }

  lemma LockedIsIndexed(index: map<LockKey, Option<string>>, ls: seq<Locked>, p: Package)
    requires IndexesLock(index, ls)
    ensures p.LockKey() in index <==> HasLocked(ls, p.LockKey())
    ensures p.LockKey() in index ==> IsChecksumOf(index[p.LockKey()], p, ls)
  {
    var key := p.LockKey();
    if HasLocked(ls, key) {
      var i :| 0 <= i < |ls| && ls[i].LockKey() == key;
      assert index[key] == LowerChecksum(ls[i].checksum);
    }
  }

  /** The checksums of the reached packages, the set taken in any order. */
  method Checksums(m: Metadata, lock: seq<Locked>, reachable: set<Id>, packages: map<Id, Package>,
          index: map<LockKey, Option<string>>)
    returns (r: Option<map<Id, Option<string>>>)
    requires reachable <= packages.Keys && IndexesLock(index, lock)
    ensures r.Some? <==> forall id :: id in reachable ==> HasLocked(lock, packages[id].LockKey())
    ensures r.Some? ==> r.value.Keys == reachable && forall id :: id in reachable ==> IsChecksumOf(r.value[id], packages[id], lock)
  {
    var checksums: map<Id, Option<string>> := map[];
    var rest := reachable;
    while rest != {}
      invariant rest <= reachable && checksums.Keys == reachable - rest
      invariant forall id :: id in checksums ==>
        HasLocked(lock, packages[id].LockKey()) && IsChecksumOf(checksums[id], packages[id], lock)
      decreases |rest|
    {
      var id :| id in rest;
      var key := packages[id].LockKey();
      LockedIsIndexed(index, lock, packages[id]);
      if key !in index {
        return None;
      }
      checksums := checksums[id := index[key]];
      rest := rest - {id};
    }
    return Some(checksums);
  }

  lemma ReachedLockedMeans(m: Metadata, lock: seq<Locked>, reachable: set<Id>, packages: map<Id, Package>)
    requires IndexesPackages(packages, m.packages) && reachable <= packages.Keys
    requires forall id :: id in reachable <==> Reaches(m.nodes, m.root, id)
    ensures ReachedAreLocked(m, lock) <==> forall id :: id in reachable ==> HasLocked(lock, packages[id].LockKey())
  {
    if ReachedAreLocked(m, lock) {
      forall id | id in reachable ensures HasLocked(lock, packages[id].LockKey()) {
        var i :| 0 <= i < |m.packages| && m.packages[i] == packages[id];
        assert Reaches(m.nodes, m.root, m.packages[i].id);
      }
    }
  }

  datatype Graph = Graph(packages: map<Id, Package>, nodes: map<Id, Node>, reached: set<Id>)

  ghost predicate IsGraph(m: Metadata, g: Graph) {
    && IndexesPackages(g.packages, m.packages) && Indexes(g.nodes, m.nodes)
    && g.reached <= g.packages.Keys && g.reached <= g.nodes.Keys
    && forall id :: id in g.reached <==> Reaches(m.nodes, m.root, id)
  }

  lemma ReachedAreIndexed(m: Metadata, g: Graph)
    requires IndexesPackages(g.packages, m.packages) && Indexes(g.nodes, m.nodes)
    requires HasPackage(m.packages, m.root) && NodesKnown(m.nodes, m.packages)
    requires forall id :: Reaches(m.nodes, m.root, id) ==> id in g.nodes
    requires forall id :: id in g.reached <==> Reaches(m.nodes, m.root, id)
    ensures IsGraph(m, g)
  {
    ReachedArePackages(m);
    forall id | id in g.reached ensures id in g.packages {
      KnownIsIndexed(g.packages, m.packages, id);
    }
  }

  /** The first half of `_resolved_packages`: both indexes and the worklist. */
  method ReadGraph(m: Metadata) returns (r: Option<Graph>)
    ensures r.Some? <==> GraphConsistent(m)
    ensures r.Some? ==> IsGraph(m, r.value)
  {
    var packages := IndexPackages(m.packages);
    if packages.None? {
      return None;
    }
    KnownIsIndexed(packages.value, m.packages, m.root);
    if m.root !in packages.value {
      return None;
    }
    var nodes := IndexNodes(m.nodes, packages.value, m.packages);
    if nodes.None? {
      return None;
    }
    var reachable := Closure(m.nodes, nodes.value, m.root);
    forall id ensures id in nodes.value <==> HasNode(m.nodes, id) {
      NodeIsIndexed(nodes.value, m.nodes, id);
    }
    if reachable.None? {
      return None;
    }
    ReachedAreIndexed(m, Graph(packages.value, nodes.value, reachable.value));
    return Some(Graph(packages.value, nodes.value, reachable.value));
  }

  /** The indexes cut down to what was reached. */
  function Restricted(m: Metadata, g: Graph, checksums: map<Id, Option<string>>): Resolution
    requires g.reached <= g.packages.Keys && g.reached <= g.nodes.Keys
  {
    Resolution(map id | id in g.reached :: g.packages[id], map id | id in g.reached :: g.nodes[id], m.root,
               (set id | id in m.members), checksums)
  }

  lemma RestrictedIsResolution(m: Metadata, lock: seq<Locked>, g: Graph, checksums: map<Id, Option<string>>)
    requires IsGraph(m, g) && checksums.Keys == g.reached
    requires forall id :: id in g.reached ==> IsChecksumOf(checksums[id], g.packages[id], lock)
    ensures IsResolution(m, lock, Restricted(m, g, checksums))
  {
  }

  /** `_resolved_packages`. */
  method ResolvedPackages(m: Metadata, lock: seq<Locked>) returns (r: Option<Resolution>)
    ensures r.Some? <==> Consistent(m, lock)
    ensures r.Some? ==> IsResolution(m, lock, r.value)
  {
    var read := ReadGraph(m);
    if read.None? {
      return None;
    }
    var g := read.value;
    var index := LockIndex(lock);
    if index.None? {
      return None;
    }
    ReachedLockedMeans(m, lock, g.reached, g.packages);
    var checksums := Checksums(m, lock, g.reached, g.packages, index.value);
    if checksums.None? {
      return None;
    }
    var known := CheckKnown(m.members, g.packages, m.packages);
    if !known {
      return None;
    }
    RestrictedIsResolution(m, lock, g, checksums.value);
    return Some(Restricted(m, g, checksums.value));
  }
}
