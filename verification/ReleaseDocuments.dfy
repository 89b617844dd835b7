/** The bill of materials and the license inventory that the release script writes. */
module ReleaseDocuments {
  import opened Orders
  import opened ReleaseMetadata
  import opened Wrappers

  /** `_bom_ref`: the digest of a package's name, version and source identity. */
  type Naming = (string, string, string) -> string

  // ----- The documents -----

  datatype Component = Component(
    ref: string, name: string, version: string, source: string, checksum: Option<string>,
    license: Option<string>, licenseFile: Option<string>, details: string)

  datatype Dependency = Dependency(ref: string, dependsOn: seq<string>)

  datatype Sbom = Sbom(root: Component, components: seq<Component>, dependencies: seq<Dependency>)

  datatype InventoryEntry = InventoryEntry(component: Component, direct: bool)

  datatype Documents = Documents(sbom: Sbom, inventoryRoot: Component, inventory: seq<InventoryEntry>)

  // ----- Orders -----

  function KeyOf(packages: map<Id, Package>, id: Id): seq<string> {
    if id in packages then packages[id].SortKey() else []
  }

  function RefOf(B: Naming, packages: map<Id, Package>, id: Id): string {
    if id in packages then
      var p := packages[id];
      B(p.name, p.version, p.SourceIdentity())
    else ""
  }

  function KeyOrder(packages: map<Id, Package>): (Id, Id) -> bool {
    (a: Id, b: Id) => PathOrder()(KeyOf(packages, a), KeyOf(packages, b))
  }

  function RefOrder(B: Naming, packages: map<Id, Package>): (Id, Id) -> bool {
    (a: Id, b: Id) => StringOrder()(RefOf(B, packages, a), RefOf(B, packages, b))
  }

  lemma KeyOrderIsTotal(packages: map<Id, Package>)
    ensures TotalPreorder(KeyOrder(packages))
  {
    PathOrderIsTotal();
    var le := PathOrder();
    forall a, b ensures KeyOrder(packages)(a, b) || KeyOrder(packages)(b, a) {
      assert le(KeyOf(packages, a), KeyOf(packages, b)) || le(KeyOf(packages, b), KeyOf(packages, a));
    }
    forall a, b, c | KeyOrder(packages)(a, b) && KeyOrder(packages)(b, c) ensures KeyOrder(packages)(a, c) {
      assert le(KeyOf(packages, a), KeyOf(packages, b)) && le(KeyOf(packages, b), KeyOf(packages, c));
    }
  }

  // ----- Building the documents -----

  predicate Complete(r: Resolution) { r.root in r.packages && r.packages.Keys == r.nodes.Keys == r.checksums.Keys }

  function ComponentOf(B: Naming, r: Resolution, id: Id): Component
    requires Complete(r) && id in r.packages
  {
    var p := r.packages[id];
    Component(RefOf(B, r.packages, id), p.name, p.version, p.SourceIdentity(), r.checksums[id], p.license, p.licenseFile, p.details)
  }

  predicate AllResolved(r: Resolution, ids: seq<Id>) { forall i :: 0 <= i < |ids| ==> ids[i] in r.packages }

  /** Every package but the root. */
  function Components(B: Naming, r: Resolution, ids: seq<Id>): seq<Component>
    requires Complete(r) && AllResolved(r, ids)
  {
    if ids == [] then []
    else
      var before, last := ids[..|ids| - 1], ids[|ids| - 1];
      assert AllResolved(r, before);
      Components(B, r, before) + if last == r.root then [] else [ComponentOf(B, r, last)]
  }

  function Refs(B: Naming, packages: map<Id, Package>, ids: seq<Id>): seq<string> {
    if ids == [] then [] else Refs(B, packages, ids[..|ids| - 1]) + [RefOf(B, packages, ids[|ids| - 1])]
  }

  function DependencyOf(B: Naming, r: Resolution, id: Id): Dependency
    requires Complete(r) && id in r.packages
  {
    Dependency(RefOf(B, r.packages, id), Sort(StringOrder(), Refs(B, r.packages, r.nodes[id].dependencies)))
  }

  function Dependencies(B: Naming, r: Resolution, ids: seq<Id>): seq<Dependency>
    requires Complete(r) && AllResolved(r, ids)
  {
    if ids == [] then []
    else
      assert AllResolved(r, ids[..|ids| - 1]);
      Dependencies(B, r, ids[..|ids| - 1]) + [DependencyOf(B, r, ids[|ids| - 1])]
  }

  /** Every package outside the workspace. */
  function Inventory(B: Naming, r: Resolution, ids: seq<Id>): seq<InventoryEntry>
    requires Complete(r) && AllResolved(r, ids)
  {
    if ids == [] then []
    else
      var before, last := ids[..|ids| - 1], ids[|ids| - 1];
      assert AllResolved(r, before);
      Inventory(B, r, before)
      + if last in r.members then [] else [InventoryEntry(ComponentOf(B, r, last), last in r.nodes[r.root].dependencies)]
  }

  lemma SortedAreResolved(r: Resolution, le: (Id, Id) -> bool, ids: seq<Id>)
    requires AllResolved(r, ids)
    ensures AllResolved(r, Sort(le, ids))
  {
    SortPermutes(le, ids);
    SameMultisetSameMembers(ids, Sort(le, ids));
    forall i | 0 <= i < |ids| ensures Sort(le, ids)[i] in r.packages {
      assert Sort(le, ids)[i] in Sort(le, ids);
    }
  }

  /** The documents, from the packages in the order of their sort keys. */
  function BuiltFrom(B: Naming, r: Resolution, ids: seq<Id>): Documents
    requires Complete(r) && AllResolved(r, ids)
  {
    SortedAreResolved(r, RefOrder(B, r.packages), ids);
    Documents(
      Sbom(ComponentOf(B, r, r.root), Components(B, r, ids), Dependencies(B, r, Sort(RefOrder(B, r.packages), ids))),
      ComponentOf(B, r, r.root), Inventory(B, r, ids))
  }

  predicate Enumerates(ids: seq<Id>, s: set<Id>) { multiset(ids) == multiset(s) }

  /** A set taken in whatever order it comes. */
  method Enumerate(s: set<Id>) returns (ids: seq<Id>)
    ensures Enumerates(ids, s)
  {
    ids := [];
    var rest := s;
    while rest != {}
      invariant rest <= s && multiset(ids) == multiset(s - rest)
      decreases |rest|
    {
      var id :| id in rest;
      assert s - (rest - {id}) == (s - rest) + {id};
      ids := ids + [id];
      rest := rest - {id};
    }
    assert s - {} == s;
  }

  lemma EnumeratedAreResolved(r: Resolution, ids: seq<Id>)
    requires Enumerates(ids, r.packages.Keys)
    ensures AllResolved(r, ids)
  {
    forall i | 0 <= i < |ids| ensures ids[i] in r.packages {
      assert ids[i] in multiset(ids);
    }
  }

  ghost predicate Documented(B: Naming, r: Resolution, d: Documents) {
    Complete(r) && exists ids :: Enumerates(ids, r.packages.Keys) && IsBuiltFrom(B, r, ids, d)
  }

  ghost predicate IsBuiltFrom(B: Naming, r: Resolution, ids: seq<Id>, d: Documents)
    requires Complete(r)
  {
    var sorted := Sort(KeyOrder(r.packages), ids);
    AllResolved(r, sorted) && d == BuiltFrom(B, r, sorted)
  }

  lemma ResolutionIsComplete(m: Metadata, lock: seq<Locked>, r: Resolution)
    requires IsResolution(m, lock, r)
    ensures Complete(r)
  {
    ReachesItself(m.nodes, m.root);
  }

  /** The documents of a resolution. */
  method Document(B: Naming, r: Resolution) returns (d: Documents)
    requires Complete(r)
    ensures Documented(B, r, d)
  {
    var ids := Enumerate(r.packages.Keys);
    EnumeratedAreResolved(r, ids);
    SortedAreResolved(r, KeyOrder(r.packages), ids);
    d := Build(B, r, Sort(KeyOrder(r.packages), ids));
    assert IsBuiltFrom(B, r, ids, d);
  }

  /** `d` is what the script makes of these inputs. */
  ghost predicate Generates(B: Naming, m: Metadata, lock: seq<Locked>, d: Option<Documents>) {
    && (d.Some? <==> Consistent(m, lock))
    && (d.Some? ==> exists r :: IsResolution(m, lock, r) && Documented(B, r, d.value))
  }

  /** `generate_documents`. */
  method GenerateDocuments(B: Naming, m: Metadata, lock: seq<Locked>) returns (d: Option<Documents>)
    ensures Generates(B, m, lock, d)
  {
    var resolved := ResolvedPackages(m, lock);
    if resolved.None? {
      return None;
    }
    ResolutionIsComplete(m, lock, resolved.value);
    var documents := Document(B, resolved.value);
    return Some(documents);
  }

  /** The loops over the sorted packages. */
  method Build(B: Naming, r: Resolution, packageIds: seq<Id>) returns (d: Documents)
    requires Complete(r) && AllResolved(r, packageIds)
    ensures d == BuiltFrom(B, r, packageIds)
  {
    var root := ComponentOf(B, r, r.root);
    var components: seq<Component> := [];
    var inventory: seq<InventoryEntry> := [];
    for i := 0 to |packageIds|
      invariant components == Components(B, r, packageIds[..i]) && inventory == Inventory(B, r, packageIds[..i])
    {
      var id := packageIds[i];
      assert packageIds[..i + 1][..i] == packageIds[..i];
      if id != r.root {
        components := components + [ComponentOf(B, r, id)];
      }
      if id !in r.members {
        inventory := inventory + [InventoryEntry(ComponentOf(B, r, id), id in r.nodes[r.root].dependencies)];
      }
    }
    assert packageIds[..|packageIds|] == packageIds;
    SortedAreResolved(r, RefOrder(B, r.packages), packageIds);
    var byRef := Sort(RefOrder(B, r.packages), packageIds);
    var dependencies: seq<Dependency> := [];
    for i := 0 to |byRef|
      invariant dependencies == Dependencies(B, r, byRef[..i])
    {
      assert byRef[..i + 1][..i] == byRef[..i];
      dependencies := dependencies + [DependencyOf(B, r, byRef[i])];
    }
    assert byRef[..|byRef|] == byRef;
    return Documents(Sbom(root, components, dependencies), root, inventory);
  }
}
