/** What the listing of a tree says about paths: looking a path up finds its entry, every
  * parent is listed, and no path is listed twice.
  */
module BackupPaths {
  import opened Orders
  import opened ManifestPath
  import opened Paths
  import opened BackupTree
  import opened Wrappers

  // ----- Children and their entries -----

  lemma {:induction false} ChildUnder(dir: Path, cs: seq<Child>, i: nat)
    requires i < |cs|
    ensures forall e :: e in Flat(dir + [cs[i].name], cs[i].node) ==> e in FlatAll(dir, cs)
  {
    if i > 0 {
      ChildUnder(dir, cs[1..], i - 1);
    }
  }

  lemma {:induction false} UnderChild(dir: Path, cs: seq<Child>, e: Entry) returns (i: nat)
    requires e in FlatAll(dir, cs)
    ensures i < |cs| && e in Flat(dir + [cs[i].name], cs[i].node)
  {
    if e in Flat(dir + [cs[0].name], cs[0].node) {
      i := 0;
    } else {
      var k := UnderChild(dir, cs[1..], e);
      i := k + 1;
    }
  }

  lemma WellNamedAt(cs: seq<Child>, i: nat)
    requires WellNamed(cs) && i < |cs|
    ensures Plain(cs[i].name) && WellNamedNode(cs[i].node)
  {
  }

  /** `path` lies below `dir`, by plain names. */
  predicate IsBelow(path: Path, dir: Path) {
    |path| > |dir| && path[..|dir|] == dir && AllPlain(path[|dir|..])
  }

  lemma BelowByOne(path: Path, dir: Path, name: string)
    requires Plain(name) && (path == dir + [name] || IsBelow(path, dir + [name]))
    ensures IsBelow(path, dir) && path[|dir|] == name
  {
    if IsBelow(path, dir + [name]) {
      var k := |dir| + 1;
      assert path == (dir + [name]) + path[k..];
      assert path[|dir|..] == [name] + path[k..];
      assert path[..|dir|] == dir;
    }
  }

  lemma {:induction false} EntriesAreBelow(dir: Path, cs: seq<Child>, e: Entry)
    requires WellNamed(cs) && e in FlatAll(dir, cs)
    ensures IsBelow(e.path, dir)
    decreases cs
  {
    var i := UnderChild(dir, cs, e);
    ChildEntry(dir, cs, i, e);
  }

  /** An entry of a child is the child's own or lies below it. */
  lemma {:induction false} ChildEntry(dir: Path, cs: seq<Child>, i: nat, e: Entry)
    requires WellNamed(cs) && i < |cs| && e in Flat(dir + [cs[i].name], cs[i].node)
    ensures IsBelow(e.path, dir) && e.path[|dir|] == cs[i].name
    ensures |e.path| == |dir| + 1 ==> e == Entry(dir + [cs[i].name], KindOf(cs[i].node))
    ensures |e.path| > |dir| + 1 ==> cs[i].node.Directory? && e in FlatAll(dir + [cs[i].name], cs[i].node.children)
    decreases cs, 0
  {
    var path, n := dir + [cs[i].name], cs[i].node;
    WellNamedAt(cs, i);
    if e != Entry(path, KindOf(n)) {
      assert n.Directory? && e in FlatAll(path, n.children);
      EntriesAreBelow(path, n.children, e);
    }
    BelowByOne(e.path, dir, cs[i].name);
  }

  // ----- Parents -----

  /** Every directory on the way to an entry is an entry. */
  lemma {:induction false} ParentsAreFolders(dir: Path, cs: seq<Child>, e: Entry, k: nat)
    requires WellNamed(cs) && e in FlatAll(dir, cs) && |dir| < k < |e.path|
    ensures Entry(e.path[..k], Folder) in FlatAll(dir, cs)
    decreases |e.path| - |dir|
  {
    var i := UnderChild(dir, cs, e);
    ChildEntry(dir, cs, i, e);
    ChildUnder(dir, cs, i);
    var path, n := dir + [cs[i].name], cs[i].node;
    assert e.path[..|dir| + 1] == path by {
      assert e.path[..|dir|] == dir;
    }
    if k == |dir| + 1 {
      assert Flat(path, n)[0] == Entry(path, Folder);
    } else {
      WellNamedAt(cs, i);
      ParentsAreFolders(path, n.children, e, k);
      assert Entry(e.path[..k], Folder) in Flat(path, n);
    }
  }

  // ----- Looking a path up -----

  function ChildNamed(cs: seq<Child>, name: string): Option<Node> {
    if cs == [] then None else if cs[0].name == name then Some(cs[0].node) else ChildNamed(cs[1..], name)
  }

  /** The regular file at a path. */
  function Find(cs: seq<Child>, names: Path): Option<Content>
    decreases |names|
  {
    if names == [] then None
    else
      match ChildNamed(cs, names[0])
      case None => None
      case Some(File(content)) => if |names| == 1 then Some(content) else None
      case Some(Directory(children)) => Find(children, names[1..])
      case Some(Irregular) => None
  }

  lemma {:induction false} ChildNamedAt(cs: seq<Child>, i: nat)
    requires i < |cs| && forall j, k :: 0 <= j < k < |cs| ==> cs[j].name != cs[k].name
    ensures ChildNamed(cs, cs[i].name) == Some(cs[i].node)
  {
    if i > 0 {
      ChildNamedAt(cs[1..], i - 1);
    }
  }

  lemma {:induction false} ChildNamedIs(cs: seq<Child>, name: string) returns (i: nat)
    requires ChildNamed(cs, name).Some?
    ensures i < |cs| && cs[i].name == name && ChildNamed(cs, name).value == cs[i].node
  {
    if cs[0].name == name {
      i := 0;
    } else {
      var k := ChildNamedIs(cs[1..], name);
      i := k + 1;
    }
  }

  lemma {:induction false} FoundIsEntry(dir: Path, cs: seq<Child>, names: Path)
    requires Find(cs, names).Some?
    ensures Entry(dir + names, FileWith(Find(cs, names).value)) in FlatAll(dir, cs)
    decreases |names|
  {
    var i := ChildNamedIs(cs, names[0]);
    ChildUnder(dir, cs, i);
    var path, n := dir + [names[0]], cs[i].node;
    if n.File? {
      assert names == [names[0]];
      assert Flat(path, n)[0] == Entry(dir + names, FileWith(n.content));
    } else {
      FoundIsEntry(path, n.children, names[1..]);
      assert path + names[1..] == dir + names;
      assert Entry(dir + names, FileWith(Find(cs, names).value)) in Flat(path, n);
    }
  }

  lemma {:induction false} EntryIsFound(dir: Path, cs: seq<Child>, names: Path, content: Content)
    requires WellNamed(cs) && names != [] && Entry(dir + names, FileWith(content)) in FlatAll(dir, cs)
    ensures Find(cs, names) == Some(content)
    decreases |names|
  {
    var e := Entry(dir + names, FileWith(content));
    var i := UnderChild(dir, cs, e);
    ChildEntry(dir, cs, i, e);
    ChildNamedAt(cs, i);
    assert names[0] == cs[i].name;
    if |names| > 1 {
      WellNamedAt(cs, i);
      assert dir + names == (dir + [names[0]]) + names[1..];
      EntryIsFound(dir + [names[0]], cs[i].node.children, names[1..], content);
    }
  }

  // ----- No path twice -----

  predicate OnePerPath(es: seq<Entry>) {
    forall i, j :: 0 <= i < j < |es| ==> es[i].path != es[j].path
  }

  lemma OnePerPathConcat(a: seq<Entry>, b: seq<Entry>)
    requires OnePerPath(a) && OnePerPath(b) && forall d, e :: d in a && e in b ==> d.path != e.path
    ensures OnePerPath(a + b)
  {
    forall i, j | 0 <= i < j < |a + b| ensures (a + b)[i].path != (a + b)[j].path {
      if i < |a| <= j {
        assert a[i] in a && b[j - |a|] in b;
      }
    }
  }

  lemma {:induction false} ListedOnce(dir: Path, cs: seq<Child>)
    requires WellNamed(cs)
    ensures OnePerPath(FlatAll(dir, cs))
    decreases cs
  {
    if cs != [] {
      var rest := cs[1..];
      assert WellNamed(rest);
      ListedOnce(dir, rest);
      NodeListedOnce(dir, cs);
      forall d, e | d in Flat(dir + [cs[0].name], cs[0].node) && e in FlatAll(dir, rest) ensures d.path != e.path {
        ChildEntry(dir, cs, 0, d);
        var i := UnderChild(dir, rest, e);
        ChildEntry(dir, rest, i, e);
        assert rest[i] == cs[i + 1];
      }
      OnePerPathConcat(Flat(dir + [cs[0].name], cs[0].node), FlatAll(dir, rest));
    }
  }

  lemma {:induction false} NodeListedOnce(dir: Path, cs: seq<Child>)
    requires WellNamed(cs) && cs != []
    ensures OnePerPath(Flat(dir + [cs[0].name], cs[0].node))
    decreases cs, 0
  {
    var path, n := dir + [cs[0].name], cs[0].node;
    WellNamedAt(cs, 0);
    if n.Directory? {
      ListedOnce(path, n.children);
      forall d, e | d in [Entry(path, Folder)] && e in FlatAll(path, n.children) ensures d.path != e.path {
        EntriesAreBelow(path, n.children, e);
      }
      OnePerPathConcat([Entry(path, Folder)], FlatAll(path, n.children));
    }
  }
}
