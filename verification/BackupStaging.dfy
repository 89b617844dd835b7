/** Writing entries into a staged tree: each is created in a directory that must be there,
  * under a name that must be free.
  */
module BackupStaging {
  import opened Orders
  import opened Paths
  import opened Backup
  import opened BackupTree
  import opened BackupPaths
  import opened Wrappers

  // ----- One entry -----

  function NodeOf(kind: Kind): Node {
    match kind
    case FileWith(content) => File(content)
    case Folder => Directory([])
    case Odd => Irregular
  }

  /** Creating one entry: None if its directory is not there or its name is taken. */
  function Place(cs: seq<Child>, path: Path, kind: Kind): Option<seq<Child>>
    decreases |path|, |cs|
  {
    if path == [] then None
    else if cs == [] then
      if |path| == 1 then Some([Child(path[0], NodeOf(kind))]) else None
    else if cs[0].name == path[0] then
      if |path| == 1 || !cs[0].node.Directory? then None
      else
        match Place(cs[0].node.children, path[1..], kind)
        case None => None
        case Some(children) => Some([Child(path[0], Directory(children))] + cs[1..])
    else
      match Place(cs[1..], path, kind)
      case None => None
      case Some(rest) => Some([cs[0]] + rest)
  }

  lemma {:induction false} FlatSplit(dir: Path, c: Child, cs: seq<Child>)
    ensures FlatAll(dir, [c] + cs) == Flat(dir + [c.name], c.node) + FlatAll(dir, cs)
  {
    assert ([c] + cs)[1..] == cs;
  }

  lemma {:induction false} AddBelow(head: Entry, below: seq<Entry>, grown: seq<Entry>, rest: seq<Entry>, e: Entry)
    requires multiset(grown) == multiset(below) + multiset{e}
    ensures multiset(([head] + grown) + rest) == multiset(([head] + below) + rest) + multiset{e}
  {
  }

  lemma {:induction false} AddAfter(first: seq<Entry>, rest: seq<Entry>, grown: seq<Entry>, e: Entry)
    requires multiset(grown) == multiset(rest) + multiset{e}
    ensures multiset(first + grown) == multiset(first + rest) + multiset{e}
  {
  }

  lemma {:induction false} PlaceBelow(dir: Path, cs: seq<Child>, path: Path, kind: Kind, children: seq<Child>)
    requires cs != [] && path != [] && cs[0].name == path[0] && cs[0].node.Directory?
    requires var here := dir + [path[0]];
      multiset(FlatAll(here, children))
      == multiset(FlatAll(here, cs[0].node.children)) + multiset{Entry(here + path[1..], kind)}
    ensures multiset(FlatAll(dir, [Child(path[0], Directory(children))] + cs[1..]))
      == multiset(FlatAll(dir, cs)) + multiset{Entry(dir + path, kind)}
  {
    var here := dir + [path[0]];
    var tail := cs[1..];
    FlatSplit(dir, Child(path[0], Directory(children)), tail);
    assert here + path[1..] == dir + path;
    AddBelow(Entry(here, Folder), FlatAll(here, cs[0].node.children), FlatAll(here, children), FlatAll(dir, tail),
             Entry(dir + path, kind));
  }

  lemma {:induction false} PlaceBeside(dir: Path, cs: seq<Child>, rest: seq<Child>, e: Entry)
    requires cs != [] && multiset(FlatAll(dir, rest)) == multiset(FlatAll(dir, cs[1..])) + multiset{e}
    ensures multiset(FlatAll(dir, [cs[0]] + rest)) == multiset(FlatAll(dir, cs)) + multiset{e}
  {
    FlatSplit(dir, cs[0], rest);
    AddAfter(Flat(dir + [cs[0].name], cs[0].node), FlatAll(dir, cs[1..]), FlatAll(dir, rest), e);
  }

  /** What is created is listed, and nothing else changes. */
  lemma {:induction false} PlaceAdds(dir: Path, cs: seq<Child>, path: Path, kind: Kind)
    requires Place(cs, path, kind).Some? && kind != Odd
    ensures multiset(FlatAll(dir, Place(cs, path, kind).value))
      == multiset(FlatAll(dir, cs)) + multiset{Entry(dir + path, kind)}
    decreases |path|, |cs|
  {
    if cs == [] {
      PlaceAlone(dir, path[0], kind);
      assert [path[0]] == path;
    } else if cs[0].name == path[0] {
      PlaceAdds(dir + [path[0]], cs[0].node.children, path[1..], kind);
      PlaceBelow(dir, cs, path, kind, Place(cs[0].node.children, path[1..], kind).value);
    } else {
      PlaceAdds(dir, cs[1..], path, kind);
      PlaceBeside(dir, cs, Place(cs[1..], path, kind).value, Entry(dir + path, kind));
    }
  }

  lemma {:induction false} PlaceAlone(dir: Path, name: string, kind: Kind)
    requires kind != Odd
    ensures FlatAll(dir, [Child(name, NodeOf(kind))]) == [Entry(dir + [name], kind)]
  {
    var c := Child(name, NodeOf(kind));
    FlatSplit(dir, c, []);
    assert [c] + [] == [c];
  }

  lemma {:induction false} PlaceKeepsNames(cs: seq<Child>, path: Path, kind: Kind)
    requires WellNamed(cs) && AllPlain(path) && Place(cs, path, kind).Some?
    ensures WellNamed(Place(cs, path, kind).value)
    ensures forall c :: c in Place(cs, path, kind).value ==> c.name == path[0] || exists d :: d in cs && d.name == c.name
    decreases |path|, |cs|
  {
    var placed := Place(cs, path, kind).value;
    if cs == [] {
    } else if cs[0].name == path[0] {
      WellNamedAt(cs, 0);
      PlaceKeepsNames(cs[0].node.children, path[1..], kind);
      assert placed[1..] == cs[1..] && placed[0].name == cs[0].name;
      ReplaceKeepsNames(cs, placed[0]);
    } else {
      WellNamedTail(cs);
      PlaceKeepsNames(cs[1..], path, kind);
      var rest := placed[1..];
      assert forall d :: d in cs[1..] ==> d in cs && d.name != cs[0].name;
      assert forall c :: c in rest ==> c.name != cs[0].name;
      ConsKeepsNames(cs[0], rest);
      assert placed == [cs[0]] + rest;
    }
  }

  lemma {:induction false} WellNamedTail(cs: seq<Child>)
    requires WellNamed(cs) && cs != []
    ensures WellNamed(cs[1..]) && Plain(cs[0].name) && WellNamedNode(cs[0].node)
    ensures forall d :: d in cs[1..] ==> d.name != cs[0].name
  {
  }

  lemma {:induction false} ConsKeepsNames(c: Child, cs: seq<Child>)
    requires WellNamed(cs) && Plain(c.name) && WellNamedNode(c.node) && forall d :: d in cs ==> d.name != c.name
    ensures WellNamed([c] + cs)
  {
  }

  lemma {:induction false} ReplaceKeepsNames(cs: seq<Child>, c: Child)
    requires WellNamed(cs) && cs != [] && c.name == cs[0].name && WellNamedNode(c.node)
    ensures WellNamed([c] + cs[1..])
  {
    WellNamedTail(cs);
    ConsKeepsNames(c, cs[1..]);
  }

  /** The directory a path is created in: the root, or a listed one. */
  predicate InFolder(es: seq<Entry>, dir: Path, path: Path) {
    |path| > |dir| && (|path| == |dir| + 1 || Entry(path[..|path| - 1], Folder) in es)
  }

  predicate Free(es: seq<Entry>, path: Path) { forall e :: e in es ==> e.path != path }

  /** Creating succeeds where the directory is there and the name free. */
  lemma {:induction false} PlaceSucceeds(dir: Path, cs: seq<Child>, path: Path, kind: Kind)
    requires WellNamed(cs) && path != [] && AllPlain(path)
    requires InFolder(FlatAll(dir, cs), dir, dir + path) && Free(FlatAll(dir, cs), dir + path)
    ensures Place(cs, path, kind).Some?
    decreases |path|, |cs|
  {
    if cs != [] {
      var full := dir + path;
      var here := dir + [cs[0].name];
      FlatSplit(dir, cs[0], cs[1..]);
      assert [cs[0]] + cs[1..] == cs;
      assert full[..|full| - 1] == dir + path[..|path| - 1];
      WellNamedTail(cs);
      if cs[0].name != path[0] {
        if |path| > 1 {
          NotUnderOther(dir, cs, path);
        }
        PlaceSucceeds(dir, cs[1..], path, kind);
      } else {
        assert Flat(here, cs[0].node)[0] in FlatAll(dir, cs);
        assert |path| == 1 ==> full == here;
        ParentUnderNamed(dir, cs, path);
        assert here + path[1..] == full;
        forall e | e in FlatAll(here, cs[0].node.children) ensures e.path != full {
          assert e in Flat(here, cs[0].node);
        }
        PlaceSucceeds(here, cs[0].node.children, path[1..], kind);
      }
    }
  }

  /** A listed directory whose path starts with another name lies under another child. */
  lemma {:induction false} NotUnderOther(dir: Path, cs: seq<Child>, path: Path)
    requires WellNamed(cs) && cs != [] && |path| > 1 && cs[0].name != path[0]
    requires Entry(dir + path[..|path| - 1], Folder) in FlatAll(dir, cs)
    ensures Entry(dir + path[..|path| - 1], Folder) in FlatAll(dir, cs[1..])
  {
    var e := Entry(dir + path[..|path| - 1], Folder);
    if e in Flat(dir + [cs[0].name], cs[0].node) {
      ChildEntry(dir, cs, 0, e);
      assert false;
    }
  }

  /** The parent of a path below the first child is that child, a directory, or is below it. */
  lemma {:induction false} ParentUnderNamed(dir: Path, cs: seq<Child>, path: Path)
    requires WellNamed(cs) && cs != [] && |path| > 1 && cs[0].name == path[0]
    requires Entry(dir + path[..|path| - 1], Folder) in FlatAll(dir, cs)
    ensures cs[0].node.Directory?
    ensures InFolder(FlatAll(dir + [cs[0].name], cs[0].node.children), dir + [cs[0].name], dir + path)
  {
    var here := dir + [cs[0].name];
    var e := Entry(dir + path[..|path| - 1], Folder);
    assert e.path[|dir|] == path[0];
    var i := UnderChild(dir, cs, e);
    ChildEntry(dir, cs, i, e);
    assert i == 0;
    assert (dir + path)[..|dir + path| - 1] == e.path;
  }

  /** One entry, in a tree. */
  lemma {:induction false} PlaceOne(cs: seq<Child>, e: Entry)
    requires WellNamed(cs) && e.path != [] && AllPlain(e.path) && e.kind != Odd
    requires InFolder(FlatAll([], cs), [], e.path) && Free(FlatAll([], cs), e.path)
    ensures Place(cs, e.path, e.kind).Some?
    ensures WellNamed(Place(cs, e.path, e.kind).value)
    ensures multiset(FlatAll([], Place(cs, e.path, e.kind).value)) == multiset(FlatAll([], cs)) + multiset{e}
  {
    assert [] + e.path == e.path;
    PlaceSucceeds([], cs, e.path, e.kind);
    PlaceAdds([], cs, e.path, e.kind);
    PlaceKeepsNames(cs, e.path, e.kind);
  }

  /** An entry can be created exactly where its directory is there and its name free. */
  lemma PlaceSucceedsExactlyWhen(cs: seq<Child>, path: Path, kind: Kind)
    requires WellNamed(cs) && AllPlain(path) && kind != Odd
    ensures Place(cs, path, kind).Some? <==>
      path != [] && InFolder(FlatAll([], cs), [], path) && Free(FlatAll([], cs), path)
  {
    assert [] + path == path;
    if path != [] && InFolder(FlatAll([], cs), [], path) && Free(FlatAll([], cs), path) {
      PlaceSucceeds([], cs, path, kind);
    }
    if Place(cs, path, kind).Some? {
      var placed := FlatAll([], Place(cs, path, kind).value);
      PlaceAdds([], cs, path, kind);
      PlaceKeepsNames(cs, path, kind);
      ListedOnce([], Place(cs, path, kind).value);
      assert Entry(path, kind) in multiset(placed);
      NothingElseThere(FlatAll([], cs), placed, Entry(path, kind));
      if |path| > 1 {
        ParentsAreFolders([], Place(cs, path, kind).value, Entry(path, kind), |path| - 1);
        assert Entry(path[..|path| - 1], Folder) in multiset(placed);
      }
    }
  }

  lemma NothingElseThere(es: seq<Entry>, placed: seq<Entry>, e: Entry)
    requires OnePerPath(placed) && multiset(placed) == multiset(es) + multiset{e}
    ensures Free(es, e.path)
  {
    forall d | d in es ensures d.path != e.path {
      assert d in multiset(placed) && e in multiset(placed);
      var i, j :| 0 <= i < |placed| && 0 <= j < |placed| && placed[i] == d && placed[j] == e;
      if d == e {
        assert multiset(es)[e] >= 1;
        assert multiset(placed)[e] >= 2;
        OnePerPathCountsOnce(placed, e);
        assert false;
      } else {
        assert i < j || j < i;
      }
    }
  }

  lemma OnePerPathCountsOnce(es: seq<Entry>, e: Entry)
    requires OnePerPath(es)
    ensures multiset(es)[e] <= 1
  {
    assert Distinct(es);
    DistinctCountsOnce(es, e);
  }

  // ----- Entries in their order -----

  /** Creating entries one after the other; None if one of them cannot be. */
  function PlaceAll(cs: seq<Child>, es: seq<Entry>): Option<seq<Child>> {
    if es == [] then Some(cs)
    else
      var last := es[|es| - 1];
      match PlaceAll(cs, es[..|es| - 1])
      case None => None
      case Some(placed) => Place(placed, last.path, last.kind)
  }

  /** What can be created below `root` in a tree that lists `there`: plain paths in folders
    * that are there by their turn, regular kinds, and no path twice or taken. */
  ghost predicate Creatable(there: seq<Entry>, root: Path, es: seq<Entry>) {
    && Entry(root, Folder) in there && root != [] && FoldersFirst(|root|, es) && OnePerPath(es)
    && forall e :: e in es ==> IsBelow(e.path, root) && AllPlain(e.path) && e.kind != Odd && Free(there, e.path)
  }

  lemma {:induction false} FoldersFirstBefore(root: nat, es: seq<Entry>, before: seq<Entry>, last: Entry)
    requires FoldersFirst(root, es) && es == before + [last]
    ensures FoldersFirst(root, before)
  {
    forall k | 0 <= k < |before| ensures FolderThere(root, before[..k], before[k].path) {
      assert FolderThere(root, es[..k], es[k].path);
      assert es[..k] == before[..k];
    }
  }

  lemma {:induction false} CreatableBefore(there: seq<Entry>, root: Path, es: seq<Entry>)
    requires Creatable(there, root, es) && es != []
    ensures Creatable(there, root, es[..|es| - 1])
  {
    var before, last := es[..|es| - 1], es[|es| - 1];
    FoldersFirstBefore(|root|, es, before, last);
    assert OnePerPath(before);
    assert forall e :: e in before ==> e in es;
  }

  /** The last of them finds its folder there and its name free. */
  lemma {:induction false} LastIsCreatable(there: seq<Entry>, root: Path, es: seq<Entry>, listed: seq<Entry>)
    requires Creatable(there, root, es) && es != []
    requires multiset(listed) == multiset(there) + multiset(es[..|es| - 1])
    ensures var last := es[|es| - 1]; InFolder(listed, [], last.path) && Free(listed, last.path)
  {
    var before, last := es[..|es| - 1], es[|es| - 1];
    SameMultisetSameMembers(listed, there + before);
    assert last in es && FolderThere(|root|, es[..|es| - 1], last.path);
    assert |last.path| == |root| + 1 ==> last.path[..|root|] == root;
    forall e | e in before ensures e.path != last.path {
      var i := Position(before, e);
      assert es[i] == e;
    }
  }

  lemma {:induction false} MoreListed(there: seq<Entry>, es: seq<Entry>, listed: seq<Entry>, more: seq<Entry>)
    requires es != [] && multiset(listed) == multiset(there) + multiset(es[..|es| - 1])
    requires multiset(more) == multiset(listed) + multiset{es[|es| - 1]}
    ensures multiset(more) == multiset(there) + multiset(es)
  {
    assert es == es[..|es| - 1] + [es[|es| - 1]];
  }

  /** Created in an order in which folders come first, everything can be created, and the tree
    * then lists what it listed and the new entries. */
  lemma {:induction false} PlaceAllSucceeds(cs: seq<Child>, root: Path, es: seq<Entry>)
    requires WellNamed(cs) && Creatable(FlatAll([], cs), root, es)
    ensures PlaceAll(cs, es).Some?
    ensures WellNamed(PlaceAll(cs, es).value)
    ensures multiset(FlatAll([], PlaceAll(cs, es).value)) == multiset(FlatAll([], cs)) + multiset(es)
  {
    if es != [] {
      var before, last := es[..|es| - 1], es[|es| - 1];
      CreatableBefore(FlatAll([], cs), root, es);
      PlaceAllSucceeds(cs, root, before);
      var placed := PlaceAll(cs, before).value;
      LastIsCreatable(FlatAll([], cs), root, es, FlatAll([], placed));
      assert last in es;
      PlaceOne(placed, last);
      MoreListed(FlatAll([], cs), es, FlatAll([], placed), FlatAll([], PlaceAll(cs, es).value));
    }
  }
}
