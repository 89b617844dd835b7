/** Paths as strings, as names, and as the platform's iterator yields them.  Characters
  * stand for bytes.
  */
module Paths {
  import opened Wrappers

  /** What the platform's path iterator yields. */
  datatype Component = RootDir | CurDir | ParentDir | Normal(name: string)

  // ----- Splitting and joining at separators -----

  /** The pieces between separators; always at least one. */
  function Split(s: string): (names: seq<string>)
    ensures names != []
  {
    if s == "" then [""]
    else
      var rest := Split(s[1..]);
      if s[0] == '/' then [""] + rest else [[s[0]] + rest[0]] + rest[1..]
  }

  function Join(names: seq<string>): string {
    if names == [] then "" else if |names| == 1 then names[0] else names[0] + "/" + Join(names[1..])
  }

  lemma JoinFront(name: string, rest: seq<string>)
    requires rest != []
    ensures Join([name] + rest) == name + "/" + Join(rest)
  {
    assert ([name] + rest)[1..] == rest;
  }

  lemma Regroup<T>(a: seq<T>, b: seq<T>, c: seq<T>, d: seq<T>)
    ensures (a + b) + c + d == a + (b + c + d)
  {
  }

  lemma JoinGrow(c: char, rest: seq<string>)
    requires rest != []
    ensures Join([[c] + rest[0]] + rest[1..]) == [c] + Join(rest)
  {
    var name, tail := rest[0], rest[1..];
    assert rest == [name] + tail;
    if tail == [] {
      assert [[c] + name] + tail == [[c] + name];
    } else {
      JoinFront([c] + name, tail);
      JoinFront(name, tail);
      Regroup([c], name, "/", Join(tail));
    }
  }

  lemma {:induction false} JoinSplit(s: string)
    ensures Join(Split(s)) == s
  {
    if s != "" {
      var rest := Split(s[1..]);
      JoinSplit(s[1..]);
      assert s == [s[0]] + s[1..];
      if s[0] == '/' {
        JoinFront("", rest);
      } else {
        JoinGrow(s[0], rest);
      }
    }
  }

  lemma {:induction false} SplitPiecesHaveNoSeparator(s: string, i: nat)
    requires i < |Split(s)|
    ensures '/' !in Split(s)[i]
  {
    if s != "" {
      if s[0] == '/' {
        if i > 0 {
          SplitPiecesHaveNoSeparator(s[1..], i - 1);
        }
      } else {
        SplitPiecesHaveNoSeparator(s[1..], i);
      }
    }
  }

  lemma {:induction false} SplitPlain(name: string)
    requires '/' !in name
    ensures Split(name) == [name]
  {
    if name != "" {
      SplitPlain(name[1..]);
      assert name == [name[0]] + name[1..];
    }
  }

  lemma {:induction false} SplitAtSeparator(name: string, rest: string)
    requires '/' !in name
    ensures Split(name + "/" + rest) == [name] + Split(rest)
  {
    var s := name + "/" + rest;
    if name == "" {
      assert s[1..] == rest;
    } else {
      SplitAtSeparator(name[1..], rest);
      assert s[1..] == name[1..] + "/" + rest;
      assert name == [name[0]] + name[1..];
    }
  }

  lemma {:induction false} SplitJoin(names: seq<string>)
    requires names != [] && forall i :: 0 <= i < |names| ==> '/' !in names[i]
    ensures Split(Join(names)) == names
  {
    if |names| == 1 {
      SplitPlain(names[0]);
    } else {
      SplitJoin(names[1..]);
      SplitAtSeparator(names[0], Join(names[1..]));
    }
  }

  // ----- The iterator -----

  /** Empty pieces and dots are dropped; two dots name the parent. */
  function Named(pieces: seq<string>): seq<Component> {
    if pieces == [] then []
    else if pieces[0] == "" || pieces[0] == "." then Named(pieces[1..])
    else [if pieces[0] == ".." then ParentDir else Normal(pieces[0])] + Named(pieces[1..])
  }

  /** The iterator over a path given as a string: a leading separator is the root, a
    * leading dot is kept. */
  function Components(s: string): seq<Component> {
    var pieces := Split(s);
    (if s != "" && s[0] == '/' then [RootDir] else if pieces[0] == "." then [CurDir] else []) + Named(pieces)
  }

  function AllNormal(names: seq<string>): (cs: seq<Component>)
    ensures |cs| == |names| && forall i :: 0 <= i < |cs| ==> cs[i] == Normal(names[i])
  {
    seq(|names|, i requires 0 <= i < |names| => Normal(names[i]))
  }

  /** A file name: what a directory entry can be called. */
  predicate Plain(name: string) { name != "" && name != "." && name != ".." && '/' !in name }

  predicate AllPlain(names: seq<string>) { forall i :: 0 <= i < |names| ==> Plain(names[i]) }

  lemma {:induction false} NamedPlain(pieces: seq<string>)
    requires AllPlain(pieces)
    ensures Named(pieces) == AllNormal(pieces)
  {
    if pieces != [] {
      NamedPlain(pieces[1..]);
      assert AllNormal(pieces) == [Normal(pieces[0])] + AllNormal(pieces[1..]);
    }
  }

  lemma {:induction false} NamesAreGood(pieces: seq<string>, i: nat)
    requires i < |Named(pieces)| && Named(pieces)[i].Normal?
    ensures var name := Named(pieces)[i].name; name in pieces && name != "" && name != "." && name != ".."
  {
    if pieces[0] == "" || pieces[0] == "." {
      NamesAreGood(pieces[1..], i);
    } else if i > 0 {
      NamesAreGood(pieces[1..], i - 1);
    }
  }

  lemma {:induction false} ComponentsOfPlain(s: string)
    requires AllPlain(Split(s))
    ensures Components(s) == AllNormal(Split(s))
  {
    NamedPlain(Split(s));
    assert Split(s)[0] != "";
  }

  /** The names the iterator yields for a path made of normal components only. */
  lemma NormalComponentsArePlain(s: string, names: seq<string>)
    requires Components(s) == AllNormal(names)
    ensures AllPlain(names)
  {
    var cs := Components(s);
    if cs != [] {
      assert cs[0] == Normal(names[0]);
    }
    assert cs == Named(Split(s));
    forall i | 0 <= i < |names| ensures Plain(names[i]) {
      assert cs[i] == Normal(names[i]);
      NamesAreGood(Split(s), i);
      var k :| 0 <= k < |Split(s)| && Split(s)[k] == names[i];
      SplitPiecesHaveNoSeparator(s, k);
    }
  }

  // ----- Paths of normal components -----

  lemma NormalIsInjective(a: seq<string>, b: seq<string>)
    requires AllNormal(a) == AllNormal(b)
    ensures a == b
  {
    assert |a| == |b|;
    forall i | 0 <= i < |a| ensures a[i] == b[i] {
      assert AllNormal(a)[i] == AllNormal(b)[i];
    }
  }

  /** The names, if every component is a normal one. */
  function NormalNames(path: seq<Component>): (names: Option<seq<string>>)
    ensures names.Some? ==> path == AllNormal(names.value)
    ensures names.None? ==> exists i :: 0 <= i < |path| && !path[i].Normal?
  {
    if path == [] then Some([])
    else
      match (NormalNames(path[..|path| - 1]), path[|path| - 1])
      case (Some(names), Normal(name)) => Some(names + [name])
      case _ => None
  }

  lemma NamesOfNormal(names: seq<string>)
    ensures NormalNames(AllNormal(names)) == Some(names)
  {
    NormalIsInjective(NormalNames(AllNormal(names)).value, names);
  }

  method CollectNormal(path: seq<Component>) returns (names: Option<seq<string>>)
    ensures names == NormalNames(path)
  {
    var collected := [];
    for i := 0 to |path|
      invariant NormalNames(path[..i]) == Some(collected)
    {
      if !path[i].Normal? {
        return None;
      }
      assert path[..i + 1][..i] == path[..i];
      collected := collected + [path[i].name];
    }
    assert path[..|path|] == path;
    return Some(collected);
  }
}
